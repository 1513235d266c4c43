/** Managers, queues and workers as interleaved processes (src/feedManagers/base.ts,
    src/task/setupTask.ts, `batch_import` of src/feedManagers/base.py). Every call and every
    job becomes a list of atomic commands on the shared stores; at each moment any process
    may run its next command, any queued job may be picked up, any feed may be trimmed. */
module Protocol {
  import opened Results
  import opened Activities
  import opened Chunks
  import Feed
  import Follow
  import Hydration

  type FeedKey = (string, string)

  const USER_FEED := "user_feed"

  datatype Job =
    | FanoutJob(followerIds: seq<string>, add: bool, activities: seq<Activity>)
    | FollowJob(userId: string, targetIds: seq<string>)
    | UnfollowJob(userId: string, sourceIds: seq<string>)

  datatype Cmd =
    | Insert(x: Activity)
    | AddId(key: FeedKey, id: string)
    | RemoveId(key: FeedKey, id: string)
    | Enqueue(job: Job)
    | Collect(userId: string)
    | Spread(key: FeedKey)
    | Sweep(key: FeedKey, sourceIds: seq<string>)

  /** A running call: the commands to come and the ids a follow has collected so far. */
  datatype Proc = Proc(cmds: seq<Cmd>, collected: set<string>)

  /** `crashed` records that hydration met a missing body. */
  datatype State = State(
    store: Hydration.Store,
    timelines: map<FeedKey, set<string>>,
    queue: seq<Job>,
    procs: seq<Proc>,
    crashed: bool)

  const Init := State(map[], map[], [], [], false)

  function Timeline(s: State, key: FeedKey): set<string> {
    if key in s.timelines then s.timelines[key] else {}
  }

  // ---- the programs ----

  function EnqueueAll(groups: seq<seq<string>>, add: bool, xs: seq<Activity>): seq<Cmd> {
    if groups == [] then [] else [Enqueue(FanoutJob(groups[0], add, xs))] + EnqueueAll(groups[1..], add, xs)
  }

  /** `addUserActivity`: body, personal feed, one job per follower group. */
  function AddUserActivity(userId: string, x: Activity, groups: seq<seq<string>>): seq<Cmd> {
    [Insert(x), AddId((USER_FEED, userId), x.id)] + EnqueueAll(groups, true, [x])
  }

  /** `removeUserActivity`: the body stays. */
  function RemoveUserActivity(userId: string, x: Activity, groups: seq<seq<string>>): seq<Cmd> {
    [RemoveId((USER_FEED, userId), x.id)] + EnqueueAll(groups, false, [x])
  }

  function InsertAll(xs: seq<Activity>): seq<Cmd> {
    if xs == [] then [] else [Insert(xs[0])] + InsertAll(xs[1..])
  }

  function AddAll(key: FeedKey, xs: seq<Activity>): seq<Cmd> {
    if xs == [] then [] else [AddId(key, xs[0].id)] + AddAll(key, xs[1..])
  }

  function RemoveAll(key: FeedKey, xs: seq<Activity>): seq<Cmd> {
    if xs == [] then [] else [RemoveId(key, xs[0].id)] + RemoveAll(key, xs[1..])
  }

  /** `batch_import`: chunk after chunk, each one stored before anything refers to it. */
  function BatchImport(userId: string, chunks: seq<seq<Activity>>, groups: seq<seq<string>>): seq<Cmd> {
    if chunks == [] then []
    else InsertAll(chunks[0]) + AddAll((USER_FEED, userId), chunks[0]) + EnqueueAll(groups, true, chunks[0]) +
         BatchImport(userId, chunks[1..], groups)
  }

  function FanoutTo(keys: seq<FeedKey>, add: bool, xs: seq<Activity>): seq<Cmd> {
    if keys == [] then []
    else (if add then AddAll(keys[0], xs) else RemoveAll(keys[0], xs)) + FanoutTo(keys[1..], add, xs)
  }

  function KeysOf(feedClasses: seq<string>, users: seq<string>): seq<FeedKey> {
    if feedClasses == [] then []
    else seq(|users|, i requires 0 <= i < |users| => (feedClasses[0], users[i])) + KeysOf(feedClasses[1..], users)
  }

  function CollectAll(targets: seq<string>): seq<Cmd> {
    if targets == [] then [] else [Collect(targets[0])] + CollectAll(targets[1..])
  }

  function SpreadAll(keys: seq<FeedKey>): seq<Cmd> {
    if keys == [] then [] else [Spread(keys[0])] + SpreadAll(keys[1..])
  }

  function SweepAll(keys: seq<FeedKey>, sources: seq<string>): seq<Cmd> {
    if keys == [] then [] else [Sweep(keys[0], sources)] + SweepAll(keys[1..], sources)
  }

  /** What a worker does with a job. */
  function WorkOn(job: Job, feedClasses: seq<string>): seq<Cmd> {
    match job
    case FanoutJob(followers, add, xs) => FanoutTo(KeysOf(feedClasses, followers), add, xs)
    case FollowJob(user, targets) => CollectAll(targets) + SpreadAll(KeysOf(feedClasses, [user]))
    case UnfollowJob(user, sources) => SweepAll(KeysOf(feedClasses, [user]), sources)
  }

  // ---- steps ----

  datatype Event =
    | Call(cmds: seq<Cmd>)
    | PickUp(place: nat, redeliver: bool)
    | Run(proc: nat, seen: set<string>)
    | Trim(key: FeedKey, kept: set<string>)

  /** The ids among `seen` whose activity belongs to one of `users`. */
  ghost function Belonging(store: Hydration.Store, seen: set<string>, users: seq<string>, separator: string): set<string> {
    set id | id in seen && id in store && Follow.Matches(store[id], users, separator)
  }

  ghost function Exec(s: State, p: Proc, seen: set<string>, separator: string): (State, set<string>)
    requires p.cmds != []
  {
    match p.cmds[0]
    case Insert(x) => (s.(store := s.store[x.id := x]), p.collected)
    case AddId(key, id) => (s.(timelines := s.timelines[key := Timeline(s, key) + {id}]), p.collected)
    case RemoveId(key, id) => (s.(timelines := s.timelines[key := Timeline(s, key) - {id}]), p.collected)
    case Enqueue(job) => (s.(queue := s.queue + [job]), p.collected)
    case Collect(user) =>
      // a slice of the user's feed is read and hydrated
      var slice := Timeline(s, (USER_FEED, user)) * seen;
      (s.(crashed := s.crashed || !(slice <= s.store.Keys)),
       p.collected + Belonging(s.store, slice, [user], separator))
    case Spread(key) => (s.(timelines := s.timelines[key := Timeline(s, key) + p.collected]), p.collected)
    case Sweep(key, sources) =>
      var slice := Timeline(s, key) * seen;
      (s.(crashed := s.crashed || !(slice <= s.store.Keys),
          timelines := s.timelines[key := Timeline(s, key) - Belonging(s.store, slice, sources, separator)]), p.collected)
  }

  ghost function Next(s: State, e: Event, feedClasses: seq<string>, separator: string): State {
    match e
    case Call(cmds) => s.(procs := s.procs + [Proc(cmds, {})])
    case PickUp(place, redeliver) =>
      if place < |s.queue| then
        s.(queue := if redeliver then s.queue else s.queue[..place] + s.queue[place + 1..],
           procs := s.procs + [Proc(WorkOn(s.queue[place], feedClasses), {})])
      else s
    case Run(i, seen) =>
      if i < |s.procs| && s.procs[i].cmds != [] then
        var (s', collected) := Exec(s, s.procs[i], seen, separator);
        s'.(procs := s.procs[i := Proc(s.procs[i].cmds[1..], collected)])
      else s
    case Trim(key, kept) => s.(timelines := s.timelines[key := Timeline(s, key) * kept])
  }

  ghost function StateFrom(s: State, events: seq<Event>, feedClasses: seq<string>, separator: string): State {
    if events == [] then s
    else Next(StateFrom(s, events[..|events| - 1], feedClasses, separator), events[|events| - 1], feedClasses, separator)
  }

  ghost function StateAfter(events: seq<Event>, feedClasses: seq<string>, separator: string): State {
    StateFrom(Init, events, feedClasses, separator)
  }

  // ---- referential integrity ----

  function IdsIn(xs: seq<Activity>): set<string> { set i | 0 <= i < |xs| :: xs[i].id }

  function JobIds(job: Job): set<string> {
    if job.FanoutJob? then IdsIn(job.activities) else {}
  }

  /** A program is sound over the bodies in `have`: it refers to nothing it has not stored. */
  predicate Sound(cmds: seq<Cmd>, have: set<string>)
    decreases |cmds|
  {
    if cmds == [] then true
    else
      match cmds[0]
      case Insert(x) => Sound(cmds[1..], have + {x.id})
      case AddId(_, id) => id in have && Sound(cmds[1..], have)
      case Enqueue(job) => JobIds(job) <= have && Sound(cmds[1..], have)
      case _ => Sound(cmds[1..], have)
  }

  /** Every id in a timeline, in a queued job or about to be written has its body stored. */
  ghost predicate Integrity(s: State) {
    !s.crashed && Hydration.Keyed(s.store) &&
    (forall key :: Timeline(s, key) <= s.store.Keys) &&
    (forall i :: 0 <= i < |s.queue| ==> JobIds(s.queue[i]) <= s.store.Keys) &&
    forall i :: 0 <= i < |s.procs| ==> Sound(s.procs[i].cmds, s.store.Keys) && s.procs[i].collected <= s.store.Keys
  }

  lemma {:induction false} SoundMonotone(cmds: seq<Cmd>, have: set<string>, more: set<string>)
    requires Sound(cmds, have) && have <= more
    ensures Sound(cmds, more)
    decreases |cmds|
  {
    if cmds != [] {
      match cmds[0]
      case Insert(x) => SoundMonotone(cmds[1..], have + {x.id}, more + {x.id});
      case _ => SoundMonotone(cmds[1..], have, more);
    }
  }

  function Stores(cmds: seq<Cmd>): set<string> {
    set i | 0 <= i < |cmds| && cmds[i].Insert? :: cmds[i].x.id
  }

  lemma {:induction false} SoundConcat(a: seq<Cmd>, b: seq<Cmd>, have: set<string>)
    ensures Sound(a + b, have) <==> Sound(a, have) && Sound(b, have + Stores(a))
    decreases |a|
  {
    if a == [] {
      assert a + b == b && have + Stores(a) == have;
    } else {
      assert (a + b)[0] == a[0] && (a + b)[1..] == a[1..] + b;
      StoresCons(a);
      match a[0]
      case Insert(x) =>
        SoundConcat(a[1..], b, have + {x.id});
        assert have + {x.id} + Stores(a[1..]) == have + Stores(a);
      case _ =>
        SoundConcat(a[1..], b, have);
        assert have + Stores(a[1..]) == have + Stores(a);
    }
  }

  lemma StoresCons(a: seq<Cmd>)
    requires a != []
    ensures Stores(a) == Stores(a[1..]) + if a[0].Insert? then {a[0].x.id} else {}
  {
    forall id | id in Stores(a) ensures id in Stores(a[1..]) + if a[0].Insert? then {a[0].x.id} else {} {
      var i :| 0 <= i < |a| && a[i].Insert? && a[i].x.id == id;
      assert i > 0 ==> a[1..][i - 1] == a[i];
    }
    forall id | id in Stores(a[1..]) ensures id in Stores(a) {
      var i :| 0 <= i < |a| - 1 && a[1..][i].Insert? && a[1..][i].x.id == id;
      assert a[i + 1] == a[1..][i];
    }
  }

  // ---- the programs of managers and workers are sound ----

  lemma IdsInCons(xs: seq<Activity>)
    requires xs != []
    ensures IdsIn(xs) == {xs[0].id} + IdsIn(xs[1..])
  {
    forall id | id in IdsIn(xs) ensures id in {xs[0].id} + IdsIn(xs[1..]) {
      var i :| 0 <= i < |xs| && xs[i].id == id;
      assert i > 0 ==> xs[1..][i - 1] == xs[i];
    }
    forall id | id in IdsIn(xs[1..]) ensures id in IdsIn(xs) {
      var i :| 0 <= i < |xs| - 1 && xs[1..][i].id == id;
      assert xs[i + 1] == xs[1..][i];
    }
  }

  lemma {:induction false} EnqueueAllSound(groups: seq<seq<string>>, add: bool, xs: seq<Activity>, have: set<string>)
    ensures Sound(EnqueueAll(groups, add, xs), have) <==> groups == [] || IdsIn(xs) <= have
    ensures Stores(EnqueueAll(groups, add, xs)) == {}
  {
    if groups != [] {
      EnqueueAllSound(groups[1..], add, xs, have);
      var cmds := EnqueueAll(groups, add, xs);
      assert cmds[1..] == EnqueueAll(groups[1..], add, xs);
      StoresCons(cmds);
    }
  }

  lemma {:induction false} InsertAllSound(xs: seq<Activity>, have: set<string>)
    ensures Sound(InsertAll(xs), have) && Stores(InsertAll(xs)) == IdsIn(xs)
  {
    if xs != [] {
      InsertAllSound(xs[1..], have + {xs[0].id});
      var cmds := InsertAll(xs);
      assert cmds[1..] == InsertAll(xs[1..]);
      StoresCons(cmds);
      IdsInCons(xs);
    }
  }

  lemma {:induction false} AddAllSound(key: FeedKey, xs: seq<Activity>, have: set<string>)
    ensures Sound(AddAll(key, xs), have) <==> IdsIn(xs) <= have
    ensures Stores(AddAll(key, xs)) == {}
  {
    if xs != [] {
      AddAllSound(key, xs[1..], have);
      var cmds := AddAll(key, xs);
      assert cmds[1..] == AddAll(key, xs[1..]);
      StoresCons(cmds);
      IdsInCons(xs);
    }
  }

  /** Adding is sound whatever is stored already: the body goes first. */
  lemma AddUserActivityIsSound(userId: string, x: Activity, groups: seq<seq<string>>, have: set<string>)
    ensures Sound(AddUserActivity(userId, x, groups), have)
  {
    var first := [Insert(x), AddId((USER_FEED, userId), x.id)];
    SoundConcat(first, EnqueueAll(groups, true, [x]), have);
    StoresCons(first);
    StoresCons(first[1..]);
    EnqueueAllSound(groups, true, [x], have + Stores(first));
    assert IdsIn([x]) == {x.id} by { assert [x][0] == x; }
    var second := first[1..];
    assert second[0] == first[1] && second[1..] == [];
    assert Sound(second, have + {x.id});
  }

  /** Removing is sound exactly when it notifies nobody or the activity was stored before:
      its job carries the id all the same. */
  lemma RemoveUserActivitySoundIff(userId: string, x: Activity, groups: seq<seq<string>>, have: set<string>)
    ensures Sound(RemoveUserActivity(userId, x, groups), have) <==> groups == [] || x.id in have
  {
    var cmds := RemoveUserActivity(userId, x, groups);
    assert cmds[1..] == EnqueueAll(groups, false, [x]);
    EnqueueAllSound(groups, false, [x], have);
    assert IdsIn([x]) == {x.id} by { assert [x][0] == x; }
  }

  /** Importing in chunks is sound for every way of chunking. */
  lemma {:induction false} BatchImportIsSound(userId: string, chunks: seq<seq<Activity>>, groups: seq<seq<string>>,
                                              have: set<string>)
    ensures Sound(BatchImport(userId, chunks, groups), have)
  {
    if chunks != [] {
      var xs := chunks[0];
      var a, b, c := InsertAll(xs), AddAll((USER_FEED, userId), xs), EnqueueAll(groups, true, xs);
      var rest := BatchImport(userId, chunks[1..], groups);
      InsertAllSound(xs, have);
      SoundConcat(a, b, have);
      AddAllSound((USER_FEED, userId), xs, have + Stores(a));
      SoundConcat(a + b, c, have);
      SoundMonotoneStores(a, b);
      EnqueueAllSound(groups, true, xs, have + Stores(a + b));
      SoundConcat(a + b + c, rest, have);
      BatchImportIsSound(userId, chunks[1..], groups, have + Stores(a + b + c));
    }
  }

  lemma SoundMonotoneStores(a: seq<Cmd>, b: seq<Cmd>)
    ensures Stores(a) <= Stores(a + b)
  {
    forall id | id in Stores(a) ensures id in Stores(a + b) {
      var i :| 0 <= i < |a| && a[i].Insert? && a[i].x.id == id;
      assert (a + b)[i] == a[i];
    }
  }

  lemma {:induction false} FanoutToIsSound(keys: seq<FeedKey>, add: bool, xs: seq<Activity>, have: set<string>)
    requires IdsIn(xs) <= have
    ensures Sound(FanoutTo(keys, add, xs), have)
  {
    if keys != [] {
      var first := if add then AddAll(keys[0], xs) else RemoveAll(keys[0], xs);
      FanoutToIsSound(keys[1..], add, xs, have);
      SoundConcat(first, FanoutTo(keys[1..], add, xs), have);
      AddAllSound(keys[0], xs, have);
      RemoveAllIsSound(keys[0], xs, have);
      SoundMonotone(FanoutTo(keys[1..], add, xs), have, have + Stores(first));
    }
  }

  lemma {:induction false} RemoveAllIsSound(key: FeedKey, xs: seq<Activity>, have: set<string>)
    ensures Sound(RemoveAll(key, xs), have)
  {
    if xs != [] {
      RemoveAllIsSound(key, xs[1..], have);
      assert RemoveAll(key, xs)[1..] == RemoveAll(key, xs[1..]);
    }
  }

  /** Programs without insertions, additions and jobs refer to nothing. */
  lemma {:induction false} ReadersAreSound(cmds: seq<Cmd>, have: set<string>)
    requires forall i :: 0 <= i < |cmds| ==> cmds[i].Collect? || cmds[i].Spread? || cmds[i].Sweep?
    ensures Sound(cmds, have)
    decreases |cmds|
  {
    if cmds != [] {
      assert forall i :: 0 <= i < |cmds| - 1 ==> cmds[1..][i] == cmds[i + 1];
      ReadersAreSound(cmds[1..], have);
    }
  }

  lemma {:induction false} CollectAllReads(targets: seq<string>)
    ensures forall i :: 0 <= i < |CollectAll(targets)| ==> CollectAll(targets)[i].Collect?
  {
    if targets != [] {
      CollectAllReads(targets[1..]);
    }
  }

  lemma {:induction false} SpreadAllReads(keys: seq<FeedKey>)
    ensures forall i :: 0 <= i < |SpreadAll(keys)| ==> SpreadAll(keys)[i].Spread?
  {
    if keys != [] {
      SpreadAllReads(keys[1..]);
    }
  }

  lemma {:induction false} SweepAllReads(keys: seq<FeedKey>, sources: seq<string>)
    ensures forall i :: 0 <= i < |SweepAll(keys, sources)| ==> SweepAll(keys, sources)[i].Sweep?
  {
    if keys != [] {
      SweepAllReads(keys[1..], sources);
    }
  }

  lemma WorkIsSound(job: Job, feedClasses: seq<string>, have: set<string>)
    requires JobIds(job) <= have
    ensures Sound(WorkOn(job, feedClasses), have)
  {
    match job
    case FanoutJob(followers, add, xs) => FanoutToIsSound(KeysOf(feedClasses, followers), add, xs, have);
    case FollowJob(user, targets) =>
      CollectAllReads(targets);
      SpreadAllReads(KeysOf(feedClasses, [user]));
      ReadersAreSound(WorkOn(job, feedClasses), have);
    case UnfollowJob(user, sources) =>
      SweepAllReads(KeysOf(feedClasses, [user]), sources);
      ReadersAreSound(WorkOn(job, feedClasses), have);
  }

  // ---- the invariant over every interleaving ----

  /** The calls managers make. */
  datatype Request =
    | AddRequest(userId: string, x: Activity, groups: seq<seq<string>>)
    | RemoveRequest(userId: string, x: Activity, groups: seq<seq<string>>)
    | ImportRequest(userId: string, chunks: seq<seq<Activity>>, groups: seq<seq<string>>)
    | FollowRequest(userId: string, targetIds: seq<string>)
    | UnfollowRequest(userId: string, targetIds: seq<string>)

  function ProgramOf(r: Request): seq<Cmd> {
    match r
    case AddRequest(u, x, groups) => AddUserActivity(u, x, groups)
    case RemoveRequest(u, x, groups) => RemoveUserActivity(u, x, groups)
    case ImportRequest(u, chunks, groups) => BatchImport(u, chunks, groups)
    case FollowRequest(u, ids) => [Enqueue(FollowJob(u, ids))]
    case UnfollowRequest(u, ids) => [Enqueue(UnfollowJob(u, ids))]
  }

  /** Only a removal needs something of its caller: the activity was added before. */
  ghost predicate ManagerCall(cmds: seq<Cmd>, store: Hydration.Store) {
    exists r :: cmds == ProgramOf(r) && (r.RemoveRequest? ==> r.x.id in store)
  }

  lemma OneJobIsSound(job: Job, have: set<string>)
    requires JobIds(job) <= have
    ensures Sound([Enqueue(job)], have)
  {
    assert [Enqueue(job)][1..] == [];
  }

  lemma ManagerCallIsSound(cmds: seq<Cmd>, store: Hydration.Store)
    requires ManagerCall(cmds, store)
    ensures Sound(cmds, store.Keys)
  {
    var r :| cmds == ProgramOf(r) && (r.RemoveRequest? ==> r.x.id in store);
    match r
    case AddRequest(u, x, groups) => AddUserActivityIsSound(u, x, groups, store.Keys);
    case RemoveRequest(u, x, groups) => RemoveUserActivitySoundIff(u, x, groups, store.Keys);
    case ImportRequest(u, chunks, groups) => BatchImportIsSound(u, chunks, groups, store.Keys);
    case FollowRequest(u, ids) => OneJobIsSound(FollowJob(u, ids), store.Keys);
    case UnfollowRequest(u, ids) => OneJobIsSound(UnfollowJob(u, ids), store.Keys);
  }

  lemma ExecKeepsIntegrity(s: State, i: nat, seen: set<string>, separator: string)
    requires Integrity(s) && i < |s.procs| && s.procs[i].cmds != []
    ensures var (s', collected) := Exec(s, s.procs[i], seen, separator);
            Integrity(s'.(procs := s.procs[i := Proc(s.procs[i].cmds[1..], collected)]))
  {
    var p := s.procs[i];
    var (s', collected) := Exec(s, p, seen, separator);
    var procs := s.procs[i := Proc(p.cmds[1..], collected)];
    assert Sound(p.cmds, s.store.Keys) && p.collected <= s.store.Keys;
    assert s.store.Keys <= s'.store.Keys;
    forall j | 0 <= j < |procs| ensures Sound(procs[j].cmds, s'.store.Keys) && procs[j].collected <= s'.store.Keys {
      if j == i {
        if p.cmds[0].Insert? {
          assert s'.store.Keys == s.store.Keys + {p.cmds[0].x.id};
        }
      } else {
        SoundMonotone(procs[j].cmds, s.store.Keys, s'.store.Keys);
      }
    }
    var t := s'.(procs := procs);
    forall key ensures Timeline(t, key) <= t.store.Keys {
      assert Timeline(s, key) <= s.store.Keys;
    }
    assert !s'.crashed by {
      match p.cmds[0]
      case Collect(user) => assert Timeline(s, (USER_FEED, user)) <= s.store.Keys;
      case Sweep(key, _) => assert Timeline(s, key) <= s.store.Keys;
      case _ =>
    }
    forall k | 0 <= k < |s'.queue| ensures JobIds(s'.queue[k]) <= s'.store.Keys {
      assert k < |s.queue| ==> s'.queue[k] == s.queue[k];
    }
  }

  lemma StepKeepsIntegrity(s: State, e: Event, feedClasses: seq<string>, separator: string)
    requires Integrity(s) && (e.Call? ==> ManagerCall(e.cmds, s.store))
    ensures Integrity(Next(s, e, feedClasses, separator))
  {
    var s' := Next(s, e, feedClasses, separator);
    if !e.Run? {
      forall k ensures Timeline(s', k) <= s'.store.Keys {
        assert Timeline(s, k) <= s.store.Keys;
      }
    }
    match e
    case Call(cmds) => ManagerCallIsSound(cmds, s.store);
    case PickUp(place, redeliver) =>
      if place < |s.queue| {
        WorkIsSound(s.queue[place], feedClasses, s.store.Keys);
      }
    case Run(i, seen) =>
      if i < |s.procs| && s.procs[i].cmds != [] {
        ExecKeepsIntegrity(s, i, seen, separator);
      }
    case Trim(key, kept) =>
  }

  /** Every call of the run is one a manager makes. */
  ghost predicate Legal(s: State, events: seq<Event>, feedClasses: seq<string>, separator: string) {
    forall i :: 0 <= i < |events| && events[i].Call? ==>
      ManagerCall(events[i].cmds, StateFrom(s, events[..i], feedClasses, separator).store)
  }

  lemma {:induction false} IntegrityStays(s: State, events: seq<Event>, feedClasses: seq<string>, separator: string)
    requires Integrity(s) && Legal(s, events, feedClasses, separator)
    ensures Integrity(StateFrom(s, events, feedClasses, separator))
  {
    if events != [] {
      var n := |events| - 1;
      forall i | 0 <= i < n && events[..n][i].Call?
        ensures ManagerCall(events[..n][i].cmds, StateFrom(s, events[..n][..i], feedClasses, separator).store)
      {
        assert events[..n][..i] == events[..i];
      }
      IntegrityStays(s, events[..n], feedClasses, separator);
      StepKeepsIntegrity(StateFrom(s, events[..n], feedClasses, separator), events[n], feedClasses, separator);
    }
  }

  /** In every interleaving of calls, workers, redeliveries and trims, every id in a
      timeline and in a queued job has its body stored, and no hydration ever fails. */
  lemma ReferentialIntegrity(events: seq<Event>, feedClasses: seq<string>, separator: string)
    requires Legal(Init, events, feedClasses, separator)
    ensures Integrity(StateAfter(events, feedClasses, separator))
  {
    IntegrityStays(Init, events, feedClasses, separator);
  }

  /** Any read of any timeline, at any moment of any run, returns all its bodies. */
  lemma ReadsNeverFail(events: seq<Event>, feedClasses: seq<string>, separator: string, key: FeedKey, ids: seq<string>)
    requires Legal(Init, events, feedClasses, separator)
    requires forall i :: 0 <= i < |ids| ==> ids[i] in Timeline(StateAfter(events, feedClasses, separator), key)
    ensures var bodies := Feed.BodiesOf(ids, StateAfter(events, feedClasses, separator).store);
            bodies.Some? && |bodies.value| == |ids| && forall i :: 0 <= i < |ids| ==> bodies.value[i].id == ids[i]
  {
    ReferentialIntegrity(events, feedClasses, separator);
    Feed.BodiesInOrder(ids, StateAfter(events, feedClasses, separator).store);
  }
}
