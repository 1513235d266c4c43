/** src/storage/redis/RedisTimelineStorage.ts scores a version 1 UUID by its time stamp; the
    in-memory timeline orders ids as texts. */
module UuidTimelines {
  import opened Results
  import opened Ranking
  import opened SortedSet
  import opened TimelineRuns
  import V1Time

  /** A text that is not a version 1 UUID is left out of account. */
  function UuidScore(id: string): real {
    var r := V1Time.TimeOfText(id);
    if r.Ok? then r.value else 0.0
  }

  /** So the stores do not simulate each other on UUIDs: whatever clock sequence and node, two
      stamps exist whose timelines the stores show in opposite orders. */
  lemma UuidStoresDisagree(rest: seq<V1Time.Byte>)
    requires |rest| == 8
    ensures var early := V1Time.Canonical(V1Time.Layout(0xffffffff, rest));
            var late := V1Time.Canonical(V1Time.Layout(0x1_0000_0000, rest));
            MemoryRun([Add([late, early])]) == [early, late] &&
            Listing(RedisRun([Add([late, early])], UuidScore)) == [late, early] && early != late
  {
    hide V1Time.Canonical, V1Time.Layout, V1Time.TimeOfText;
    V1Time.LaterUuidCanSortFirst(rest);
    StoresDisagree(V1Time.Canonical(V1Time.Layout(0x1_0000_0000, rest)),
                   V1Time.Canonical(V1Time.Layout(0xffffffff, rest)), UuidScore);
  }
}
