/** The port's `batchImport` (src/feedManagers/base.ts:359-406) waits for nothing. Chunk after
    chunk it starts an insertion and an addition on the one connection
    (src/storage/redis/connection.ts:3-13), which carries commands out in the order they are
    sent. `setMany` sends its first write at once and each further one after the answer to the
    one before (src/storage/redis/structures/hash.ts:86-92), so the first body of every chunk
    is stored before any addition is carried out, and the rest races with the additions. */
module UnawaitedImport {
  import opened Activities
  import opened Chunks
  import opened Protocol
  import opened ProtocolEffects
  import opened ProtocolRuns
  import Hydration

  /** What is still to be stored, chunk by chunk, and what is to be added. */
  function Programs(key: FeedKey, pending: seq<seq<Activity>>, chunks: seq<seq<Activity>>): seq<seq<Cmd>> {
    seq(|pending|, i requires 0 <= i < |pending| => InsertAll(pending[i])) +
    seq(|chunks|, i requires 0 <= i < |chunks| => AddAll(key, chunks[i]))
  }

  function Procs(programs: seq<seq<Cmd>>): seq<Proc> {
    seq(|programs|, i requires 0 <= i < |programs| => Proc(programs[i], {}))
  }

  /** All of them started, none of them having run yet. */
  ghost function Launched(s: State, programs: seq<seq<Cmd>>): State {
    s.(procs := s.procs + Procs(programs))
  }

  function Calls(programs: seq<seq<Cmd>>): seq<Event> {
    seq(|programs|, i requires 0 <= i < |programs| => Call(programs[i]))
  }

  /** They are calls like others, but for what they promise. */
  lemma {:induction false} LaunchedByCalls(s: State, programs: seq<seq<Cmd>>, feedClasses: seq<string>, separator: string)
    ensures StateFrom(s, Calls(programs), feedClasses, separator) == Launched(s, programs)
  {
    if programs == [] {
      assert s.procs + Procs(programs) == s.procs;
    } else {
      var rest, last := programs[..|programs| - 1], programs[|programs| - 1];
      LaunchedByCalls(s, rest, feedClasses, separator);
      assert Calls(programs)[..|programs| - 1] == Calls(rest) && Calls(programs)[|programs| - 1] == Call(last);
      assert s.procs + Procs(rest) + [Proc(last, {})] == s.procs + Procs(programs);
    }
  }

  /** Some timeline refers to a body that is not stored. */
  ghost predicate Dangling(s: State) {
    exists key :: !(Timeline(s, key) <= s.store.Keys)
  }

  lemma IntegrityLeavesNothingDangling(s: State)
    requires Integrity(s)
    ensures !Dangling(s)
  {
  }

  ghost predicate CanDangle(s: State, feedClasses: seq<string>, separator: string) {
    exists events :: Legal(s, events, feedClasses, separator) && Dangling(StateFrom(s, events, feedClasses, separator))
  }

  // ---- when it is safe ----

  lemma LaunchedKeepsIntegrity(s: State, programs: seq<seq<Cmd>>)
    requires Integrity(s) && forall i :: 0 <= i < |programs| ==> Sound(programs[i], s.store.Keys)
    ensures Integrity(Launched(s, programs))
  {
    hide Sound;
    var t := Launched(s, programs);
    forall key ensures Timeline(t, key) <= t.store.Keys {
      assert Timeline(s, key) <= s.store.Keys;
    }
    forall i | 0 <= i < |t.procs| ensures Sound(t.procs[i].cmds, t.store.Keys) && t.procs[i].collected <= t.store.Keys {
      if i >= |s.procs| {
        assert t.procs[i] == Proc(programs[i - |s.procs|], {});
      }
    }
  }

  lemma {:induction false} IdsOfChunk(chunks: seq<seq<Activity>>, i: nat)
    requires i < |chunks|
    ensures IdsIn(chunks[i]) <= IdsIn(Concat(chunks))
  {
    hide IdsIn;
    HeadOfConcat(chunks);
    IdsInConcat(chunks[0], Concat(chunks[1..]));
    if i > 0 {
      IdsOfChunk(chunks[1..], i - 1);
    }
  }

  lemma ProgramsAreSound(key: FeedKey, pending: seq<seq<Activity>>, chunks: seq<seq<Activity>>, have: set<string>)
    requires IdsIn(Concat(chunks)) <= have
    ensures forall i :: 0 <= i < |Programs(key, pending, chunks)| ==> Sound(Programs(key, pending, chunks)[i], have)
  {
    hide Sound, IdsIn, Concat;
    var all := Programs(key, pending, chunks);
    forall i | 0 <= i < |all| ensures Sound(all[i], have) {
      if i < |pending| {
        InsertAllSound(pending[i], have);
      } else {
        IdsOfChunk(chunks, i - |pending|);
        AddAllSound(key, chunks[i - |pending|], have);
      }
    }
  }

  // ---- when it is not ----

  /** One addition that runs ahead leaves its ids without bodies. */
  lemma AdditionRunsAhead(s: State, i: nat, key: FeedKey, xs: seq<Activity>, feedClasses: seq<string>, separator: string)
    requires i < |s.procs| && s.procs[i] == Proc(AddAll(key, xs), {}) && !(IdsIn(xs) <= s.store.Keys)
    ensures CanDangle(s, feedClasses, separator)
  {
    hide Exec, Ran, IdsIn;
    var events := Runs(i, |s.procs[i].cmds|, {});
    FinishedBySchedule(s, i, {}, feedClasses, separator);
    FinishedIsRan(s, i, {}, feedClasses, separator);
    AddAllDoes(s, key, xs, {}, {}, separator);
    RunsAreRuns(i, |s.procs[i].cmds|, {});
    var t := StateFrom(s, events, feedClasses, separator);
    assert t.store == s.store && IdsIn(xs) <= Timeline(t, key);
    assert Dangling(t) by {
      assert !(Timeline(t, key) <= t.store.Keys);
    }
    assert Legal(s, events, feedClasses, separator);
  }

  lemma {:induction false} MissingInSome(chunks: seq<seq<Activity>>, have: set<string>) returns (i: nat)
    requires !(IdsIn(Concat(chunks)) <= have)
    ensures i < |chunks| && !(IdsIn(chunks[i]) <= have)
  {
    assert IdsIn([]) == {};
    hide IdsIn;
    assert chunks != [];
    HeadOfConcat(chunks);
    IdsInConcat(chunks[0], Concat(chunks[1..]));
    if IdsIn(chunks[0]) <= have {
      var j := MissingInSome(chunks[1..], have);
      i := j + 1;
    } else {
      i := 0;
    }
  }

  /** Whatever else goes on: insertions and additions that run side by side can leave an id
      without its body exactly when some body is not stored at the start. */
  lemma RaceIff(s: State, key: FeedKey, pending: seq<seq<Activity>>, chunks: seq<seq<Activity>>,
                feedClasses: seq<string>, separator: string)
    requires Integrity(s)
    ensures CanDangle(Launched(s, Programs(key, pending, chunks)), feedClasses, separator)
       <==> !(IdsIn(Concat(chunks)) <= s.store.Keys)
  {
    hide Integrity, Legal, StateFrom, IdsIn, Concat, Dangling;
    var programs := Programs(key, pending, chunks);
    var t := Launched(s, programs);
    if IdsIn(Concat(chunks)) <= s.store.Keys {
      ProgramsAreSound(key, pending, chunks, s.store.Keys);
      LaunchedKeepsIntegrity(s, programs);
      forall events | Legal(t, events, feedClasses, separator)
        ensures !Dangling(StateFrom(t, events, feedClasses, separator))
      {
        IntegrityStays(t, events, feedClasses, separator);
        IntegrityLeavesNothingDangling(StateFrom(t, events, feedClasses, separator));
      }
    } else {
      var i := MissingInSome(chunks, s.store.Keys);
      var place := |s.procs| + |pending| + i;
      assert t.procs[place] == Proc(AddAll(key, chunks[i]), {});
      AdditionRunsAhead(t, place, key, chunks[i], feedClasses, separator);
    }
  }

  // ---- the import ----

  function Firsts(chunks: seq<seq<Activity>>): seq<Activity>
    requires forall i :: 0 <= i < |chunks| ==> chunks[i] != []
  {
    seq(|chunks|, i requires 0 <= i < |chunks| => chunks[i][0])
  }

  function Rests(chunks: seq<seq<Activity>>): seq<seq<Activity>>
    requires forall i :: 0 <= i < |chunks| ==> chunks[i] != []
  {
    seq(|chunks|, i requires 0 <= i < |chunks| => chunks[i][1..])
  }

  /** The moment after the loop: the first body of each chunk is stored, the rest is on its
      way, and so are all additions. */
  ghost function InFlight(s: State, userId: string, chunks: seq<seq<Activity>>): State
    requires forall i :: 0 <= i < |chunks| ==> chunks[i] != []
  {
    Launched(s.(store := Hydration.Stored(s.store, Firsts(chunks))), Programs(UserKey(userId), Rests(chunks), chunks))
  }

  /** Steps lead there, but for one process that is done: it stored the first bodies. */
  lemma InFlightIsReached(s: State, userId: string, chunks: seq<seq<Activity>>, feedClasses: seq<string>, separator: string)
    returns (events: seq<Event>, done: Proc)
    requires forall i :: 0 <= i < |chunks| ==> chunks[i] != []
    ensures done.cmds == []
    ensures var t := s.(procs := s.procs + [done]);
            StateFrom(s, events, feedClasses, separator) == InFlight(t, userId, chunks)
  {
    var first, programs := InsertAll(Firsts(chunks)), Programs(UserKey(userId), Rests(chunks), chunks);
    var started := [Call(first)] + Runs(|s.procs|, |first|, {});
    var u := CalledAndRun(s, first, {}, feedClasses, separator);
    InsertAllDoes(s, Firsts(chunks), {}, {}, separator);
    done := u.procs[|s.procs|];
    assert u.procs == u.procs[..|s.procs|] + [done];
    events := started + Calls(programs);
    hide StateFrom, Ran, Runs, InsertAll;
    StateFromConcat(s, started, Calls(programs), feedClasses, separator);
    LaunchedByCalls(u, programs, feedClasses, separator);
  }

  lemma {:induction false} StoredKeys(store: Hydration.Store, xs: seq<Activity>)
    ensures Hydration.Stored(store, xs).Keys == store.Keys + IdsIn(xs)
    decreases |xs|
  {
    if xs != [] {
      StoredKeys(store[xs[0].id := xs[0]], xs[1..]);
      IdsInCons(xs);
    }
  }

  lemma StoringKeepsIntegrity(s: State, xs: seq<Activity>)
    requires Integrity(s)
    ensures Integrity(s.(store := Hydration.Stored(s.store, xs)))
  {
    StoredKeys(s.store, xs);
    Hydration.StoredIsKeyed(s.store, xs);
    hide Hydration.Stored, IdsIn;
    var t := s.(store := Hydration.Stored(s.store, xs));
    forall key ensures Timeline(t, key) <= t.store.Keys {
      assert Timeline(s, key) <= s.store.Keys;
    }
    forall i | 0 <= i < |s.procs| ensures Sound(s.procs[i].cmds, t.store.Keys) {
      SoundMonotone(s.procs[i].cmds, s.store.Keys, t.store.Keys);
    }
  }

  /** The import as written can leave an id without its body exactly when it brings an
      activity that is neither stored already nor the first of a chunk. */
  lemma UnawaitedImportIff(s: State, userId: string, chunks: seq<seq<Activity>>, feedClasses: seq<string>, separator: string)
    requires Integrity(s) && forall i :: 0 <= i < |chunks| ==> chunks[i] != []
    ensures CanDangle(InFlight(s, userId, chunks), feedClasses, separator)
       <==> !(IdsIn(Concat(chunks)) <= s.store.Keys + IdsIn(Firsts(chunks)))
  {
    hide Integrity, CanDangle, IdsIn, Concat, Hydration.Stored;
    StoringKeepsIntegrity(s, Firsts(chunks));
    StoredKeys(s.store, Firsts(chunks));
    RaceIff(s.(store := Hydration.Stored(s.store, Firsts(chunks))), UserKey(userId), Rests(chunks), chunks, feedClasses, separator);
  }

  /** Two new activities in one chunk are enough. */
  lemma UnawaitedImportBreaksIntegrity(userId: string, x: Activity, y: Activity, feedClasses: seq<string>, separator: string)
    requires x.id != y.id
    ensures CanDangle(InFlight(Init, userId, [[x, y]]), feedClasses, separator)
  {
    var chunks := [[x, y]];
    UnawaitedImportIff(Init, userId, chunks, feedClasses, separator);
    assert Concat(chunks) == [x, y] by {
      HeadOfConcat(chunks);
    }
    assert [x, y][1] == y;
    assert y.id in IdsIn([x, y]);
    assert Firsts(chunks) == [x];
    assert IdsIn([x]) == {x.id} by {
      assert [x][0] == x;
    }
  }

  /** Chunks of one activity are always safe. */
  lemma ChunksOfOneAreSafe(s: State, userId: string, xs: seq<Activity>, feedClasses: seq<string>, separator: string)
    requires Integrity(s)
    ensures forall i :: 0 <= i < |Chunk(xs, 1)| ==> Chunk(xs, 1)[i] != []
    ensures !CanDangle(InFlight(s, userId, Chunk(xs, 1)), feedClasses, separator)
  {
    hide Integrity, CanDangle;
    ConcatOfChunks(xs, 1);
    OnesAreFirsts(Chunk(xs, 1));
    UnawaitedImportIff(s, userId, Chunk(xs, 1), feedClasses, separator);
  }

  lemma {:induction false} OnesAreFirsts(chunks: seq<seq<Activity>>)
    requires forall i :: 0 <= i < |chunks| ==> |chunks[i]| == 1
    ensures Concat(chunks) == Firsts(chunks)
  {
    if chunks != [] {
      OnesAreFirsts(chunks[1..]);
      HeadOfConcat(chunks);
      assert Firsts(chunks) == [chunks[0][0]] + Firsts(chunks[1..]);
      assert chunks[0] == [chunks[0][0]];
    }
  }
}
