# Verification of the feed engine

A model of this stream framework's feed engine in Dafny, and proofs about it, in four
layers.

1. **Timeline storage.** `Ranking` gives the mathematics of a set of members ordered by
   (score, member). `SortedSet` is the Redis structure on it, `MemoryTimeline` the sorted
   array, `TimelineRuns` compares them over whole runs, and `TrimSchedules` says exactly when
   trimming at random moments shows. `UuidTimelines` gives ids on which the stores differ.
2. **Aggregation.** `Aggregates` is the aggregate with its counters, `Aggregator` the
   grouping and merging. `AggregateStore`, `WriteBack`, `AggregateSteps`, `AggregateRemoval`
   and `AggregatedFeed` take it to the state machine: a sorted set of serialized texts that
   represents the aggregates meant, through every run of additions, removals and trims.
   `Redelivery` says when delivering an addition twice does harm.
3. **Normalised storage and protocol.** `HashCache` is the sharded hash and `BodyStorage`
   the activity storage on it. `Hydration` and `Feed` put bodies back to ids; their fetch
   takes bodies as they were inserted and agrees with `BodyStorage` on all but the time.
   `Fanout`, `Follow` and `Protocol` are the managers, queues and workers, the last one with
   every interleaving of their steps; `ProtocolEffects` says what they bring about when
   undisturbed, `ProtocolRuns` and `ServedRequests` carry that over to the states runs reach,
   and `UnawaitedImport` says when an import that does not wait goes wrong.
4. **Encoding.** `Text`, `Decimal`, `AggregatedSerializer`, `ActivitySerializer`, `V1Time`
   and `HashCode`, over the 32-bit words of `Words32`.

Redis is an abstract state: a map from members to scores with negative rank indices, and maps
for hashes. Objects whose methods update their fields are classes here; the aggregate's
fields are one value, `agg`, so that a method's effect on it is a function. Each method is
specified by a function of its inputs and the old state, and the properties are proved of
that function. Random choices are arguments or arbitrary values. `dafny verify
dfyconfig.toml` checks everything.

## Code, comments and intent

Where code and comments disagree, the model follows the code:

- The doc comment of `reverse_bisect_left` promises a place to the left of equal entries; the
  code finds the one to their right (`MemoryTimeline.LeftOfEqualIffAbsent`).
- `recentRank.ts` sorts ascending by update time.
- `pop(0)` in `AggregatedActivity.ts:176` drops the newest activity: JavaScript's `pop` takes
  no argument.
- `indexOf` in `sorted_set.ts:45-51` throws for the best member, because its rank 0 is falsy.
- `parseBigInt` takes the first digit for the least significant one.
- `getItem(0)` without a stop throws, and a stop of 0 counts as none.
- `sorted_set.ts:64-69` rejects an empty list, whose zip has no scores.

Where the port slips from its evident intent, the model follows the intent:

- `InMemoryTimelineStorage.ts`: `src/storage/memory.py` is the reference. What the port does
  as written, and exactly when that is right, is in `PortDepartures`.
- `BaseAggregator.ts:96`: the JSON clone loses its methods; the comment above it says deep copy.
- `AggregatedFeed.ts`: the dictionary at line 214 is keyed by each aggregate's group, the
  return at line 250 stands behind the loop, and the new aggregates at lines 441-444 are
  concatenated.
- An empty list to add, which the sorted set rejects, adds nothing to a feed, flat or
  aggregated: `follow_many` and the aggregated feed's write-back both pass such lists.
- `ActivitySerializer.ts:46`: `loads` reads the time from the target. Feeds are modelled with
  bodies that keep their time, as `dumps` writes it; only `updated_at` after a removal depends
  on it. `BodyStorage.TimeIsReadFromTarget` says when the code agrees.
- `AggregatedActivity.ts:242`: index -1 is the last activity.
- `setupTask.ts:178`: the chunk loop runs to its end, as in `src/feedManagers/base.py:324-332`;
  `Fanout.PortVisitsAllIff` says when the early return does no harm.
- `src/feedManagers/base.ts:359-406`: each write of an import is awaited before the next, as
  in `base.py`; `UnawaitedImport.UnawaitedImportIff` says when the missing waits do harm. The
  follower groups at line 388 are not awaited either, so the port's import enqueues no job;
  the model enqueues them, as `base.py` does. The trims and cache calls that are not awaited
  are taken to be done when the next step begins.

## Model

| member | source | states |
|---|---|---|
| `SortedSet.RedisSortedSetCache.AddMany` | src/storage/redis/structures/sorted_set.ts:61-83 | An empty list, or one score that is not a number, rejects everything and changes nothing; otherwise adding in chunks of 200 is adding all pairs at once, later pairs winning, and the results sum to the growth of the set. |
| `SortedSet.RedisSortedSetCache.RemoveMany` | src/storage/redis/structures/sorted_set.ts:85-94 | Exactly the named members go; one result per value, summing to the shrinkage. |
| `SortedSet.RedisSortedSetCache.Trim` | src/storage/redis/structures/sorted_set.ts:117-137 | Keeps exactly the best `maxLength` members by (score, member) or, sorted ascending, those with fewer than that many below them; a missing or zero length means the cache's own; the count returned is what went. |
| `SortedSet.TrimRanks` | src/storage/redis/structures/sorted_set.ts:124-132 | Removing ranks 0 to -max-1 is keeping the members with fewer than `max` better ones. |
| `Ranking.ListingOfKeep` | src/storage/redis/structures/sorted_set.ts:115-137 | A trimmed set of n members has min(n, max) of them and its descending listing is that prefix of the old listing: every slice within the first max is unchanged. |
| `SortedSet.RedisSortedSetCache.GetResults` | src/storage/redis/structures/sorted_set.ts:141-196 | A read returns members and their scores in descending (score, member) order, at the offset and limit computed from start and stop; on a cache sorted ascending it finds nothing. |
| `SortedSet.RedisSortedSetCache.IndexOf` | src/storage/redis/structures/sorted_set.ts:36-52 | The place of a member in the listing, counted from the front of the cache's order; a missing member throws, and so does the first one, whose rank is 0. |
| `SortedSet.ZAddConcat` | src/storage/redis/structures/sorted_set.ts:76-81 | Adding one list after another is adding their concatenation, with overwriting of repeated members. |
| `SortedSet.WindowsAgree` | src/storage/redis/structures/sorted_set.ts:147-159 | The offset and limit arithmetic cuts the same slice as Python's `timeline[start:stop]` if and only if the stop is missing, or is neither 0 nor before the start, or the start is past the end. |
| `Ranking.ListingIsUnique` | src/storage/redis/structures/sorted_set.ts:139-196 | There is exactly one descending listing of a set of scored members. |
| `MemoryTimeline.ReverseBisectLeft` | src/storage/memory.py:11-26 | Terminates on every non-increasing list and range, throws only for a negative `lo`, and returns a place with nothing below `x` before it and only smaller entries after it. |
| `MemoryTimeline.SplitIsUnique` | src/storage/memory.py:11-26 | There is only one such place. |
| `MemoryTimeline.LeftOfEqualIffAbsent` | src/storage/memory/InMemoryTimelineStorage.ts:10-26 | The doc comment promises a place to the left of equal entries; the place found is one if and only if `x` does not occur in the range. |
| `MemoryTimeline.DescendingIsListing` | src/storage/memory.py:67-99 | A strictly descending list is the unique descending listing of its set of ids, and as long as the set is large. |
| `MemoryTimeline.InMemoryTimelineStorage.AddToStorage` | src/storage/memory.py:67-75 | The timeline becomes the descending listing of old ids and new ids, all other timelines stay, and the count is the actual growth. |
| `MemoryTimeline.InMemoryTimelineStorage.RemoveFromStorage` | src/storage/memory.py:77-83 | The timeline becomes the descending listing of the ids that are left; the count is the actual shrinkage. |
| `MemoryTimeline.InMemoryTimelineStorage.Trim` | src/storage/memory.py:98-99 | The `length` greatest ids stay, still strictly descending. |
| `MemoryTimeline.InMemoryTimelineStorage.GetSliceFromStorage` | src/storage/memory.py:62-65 | Pairs of each id with itself, over the requested slice of the listing. |
| `PortDepartures.ReverseBisectLeftAsWritten` | src/storage/memory/InMemoryTimelineStorage.ts:27-44 | With `// 2` commented out the search returns a place past the end for every non-empty list. |
| `PortDepartures.InsertionIff` | src/storage/memory/InMemoryTimelineStorage.ts:92-103 | One insertion as written yields the sorted timeline if and only if the list was empty or the new id is below all of it. |
| `PortDepartures.AdditionsIff` | src/storage/memory/InMemoryTimelineStorage.ts:78-105 | A whole run of additions as written, to any sorted timeline, yields the sorted timeline if and only if every id that is not there yet comes in below everything that is. |
| `PortDepartures.AscendingArrivalsStay` | src/storage/memory/InMemoryTimelineStorage.ts:92-103 | Ids arriving in ascending order, the usual case, are kept oldest first. |
| `PortDepartures.TrimIff` | src/storage/memory/InMemoryTimelineStorage.ts:136-138 | As written a trim keeps exactly the complement of what should stay, which is right if and only if the timeline is empty. |
| `PortDepartures.RemoveAsWritten` | src/storage/memory/InMemoryTimelineStorage.ts:107-116 | As written a removal changes nothing and returns 0; the timeline is as intended if and only if it was sorted and held none of the ids. |
| `PortDepartures.ReadIff` | src/storage/memory/InMemoryTimelineStorage.ts:72-75 | As written a read returns the requested slice if and only if it starts at 0 or past the end, is empty, or reaches the end; it leaves the timeline intact if and only if it read nothing. |
| `PortDepartures.RepeatedReadMovesOn` | src/storage/memory/InMemoryTimelineStorage.ts:72-75 | Asking for the head of the timeline twice gives the head, and then what came after it. |
| `TimelineRuns.Simulation` | src/storage/redis/structures/sorted_set.ts:61-196 | When scores increase with ids, every run of add, remove and trim leaves the same list in the sorted-array timeline and in the Redis sorted set. |
| `TimelineRuns.StoresAgreeIffMonotone` | src/storage/memory.py:54-99 | The two stores agree on every run over a set of ids if and only if, on that set, scores never contradict the order of the ids. |
| `TimelineRuns.SameSlices` | src/storage/redis/structures/sorted_set.ts:141-196 | After every such run counts agree, and so does every slice whose stop is missing or is neither 0 nor before the start. |
| `TimelineRuns.StoresDisagree` | src/storage/redis/RedisTimelineStorage.ts:164-170 | Two ids whose scores are ordered the other way round come out in opposite orders. |
| `UuidTimelines.UuidStoresDisagree` | src/storage/redis/RedisTimelineStorage.ts:162-170 | Version 1 UUIDs are such ids: for every clock sequence and node there are two whose timelines differ between the stores. |
| `TimelineRuns.TrimmedFeedHoldsTop` | src/feeds/base/base.ts:216-283 | At every moment of every run, a feed trimmed at arbitrary times holds the best max - h entries of the never-trimmed feed and nothing else, h being the number of entries removals have hit. |
| `TimelineRuns.TrimIsUnobservable` | src/feeds/base/base.ts:235-237 | Reads of the first k entries cannot tell whether, when or how often the feed was trimmed, as long as k plus the removal hits stay within `maxLength`; the trimmed feed is always a subset. |
| `TimelineRuns.AddOnlyRunsHaveNoHits` | src/feeds/base/base.ts:216-240 | In add-only runs there are no hits, so trims are invisible for every k up to `maxLength`. |
| `TimelineRuns.HitsAreLosses` | src/feeds/base/base.ts:248-273 | A removal hits as many entries as the never-trimmed feed loses by it. |
| `TrimSchedules.TrimIsInvisibleIff` | src/feeds/base/base.ts:216-283 | No schedule of trims shows in the first k places if and only if each of the final first k ids has been among the best `maxLength` at every moment since it was last added. |
| `TrimSchedules.FewHitsAreSteady` | src/feeds/base/base.ts:235-273 | k plus the removal hits staying within `maxLength` is a sufficient case of that condition. |
| `TrimSchedules.RemovalAfterTrimShows` | src/feeds/base/base.ts:248-273 | For every `maxLength` a single removal hit can show: add one id too many, trim, remove the best, and the last of the first `maxLength` places is missing. |
| `Aggregates.AggregatedActivity.Append` | src/activity/AggregatedActivity.ts:154-180 | A duplicate throws and changes nothing; otherwise the 16th activity is dropped again (JavaScript's `pop` takes the newest) and counted, and the dates widen. |
| `Aggregates.AggregatedActivity.Remove` | src/activity/AggregatedActivity.ts:182-201 | Missing and last activities throw and change nothing; otherwise exactly that activity goes, `updated_at` follows the last one left, and the minimized number sinks while positive. |
| `Aggregates.AggregatedActivity.RemoveMany` | src/activity/AggregatedActivity.ts:203-214 | Removes one by one and stops with ActivityNotFound at the first failure, keeping what was done before it. |
| `Aggregates.DropRemovesExactly` | src/activity/AggregatedActivity.ts:190-192 | Among distinct ids the filter removes that one activity and nothing else. |
| `Aggregates.DropCuts` | src/activity/AggregatedActivity.ts:190-192 | Where it sits it is cut out; the others keep their order. |
| `Aggregates.RemovalDates` | src/activity/AggregatedActivity.ts:194-195 | A removal sets `updated_at` to the time of the last activity whose id is another one. |
| `Aggregates.RemovalStopsAt` | src/activity/AggregatedActivity.ts:203-214 | Where one removal fails, those before it are done and those behind it are not. |
| `Aggregates.ExactAccounting` | src/activity/AggregatedActivity.ts:154-238 | After every run of appends and removes on a new aggregate: at most 15 retained ids, all distinct, never none again, and `activity_count` = successful appends - removes - removes made while the minimized number was positive. |
| `Aggregates.AppendAllGrows` | src/activity/AggregatedActivity.ts:154-180 | Appending any list of new ids succeeds and keeps the earliest 15, counts the rest and dates the aggregate from its first activity. |
| `Aggregates.MaxTimeIsLatest` | src/activity/AggregatedActivity.ts:168-171 | The date kept as `updated_at` bounds every time appended and is one of them, or the one before. |
| `Aggregates.AppendOnlyRun` | src/activity/AggregatedActivity.ts:154-180 | In every append-only run on a new aggregate, ids repeated or not, the aggregate is grown by exactly the successful appends: `updated_at` is the maximum of their times, `created_at` the first one's. |
| `Aggregates.GrownTwice` | src/activity/AggregatedActivity.ts:154-180 | Appending in two batches comes to the same as appending in one. |
| `Aggregates.HydrateInvertsDehydrate` | src/activity/AggregatedActivity.ts:65-88 | Hydrating what was dehydrated, with the bodies by id, gives back the original aggregate. |
| `Aggregates.AggregatedActivity.GetDehydrated` | src/activity/AggregatedActivity.ts:65-76 | Replaces activities by their ids in order, once; a second time throws. |
| `Aggregates.AggregatedActivity.GetHydrated` | src/activity/AggregatedActivity.ts:79-88 | Appends the bodies in id order and forgets the ids; throws unless dehydrated. |
| `Aggregates.SerializationIdIsUpdateTime` | src/activity/AggregatedActivity.ts:59-62 | Two aggregates share a serialization id if and only if their `updated_at` is equal, a missing one counting as 1970. |
| `Aggregates.SerializationIdReads` | src/activity/AggregatedActivity.ts:59-62 | The serialization id is `updated_at` in milliseconds, in decimal, before and after 1970. |
| `AggregatedSerializer.Dumps` | src/serializers/AggregatedActivitySerializer.ts:23-69 | A group containing `;;` throws before anything changes; otherwise the text is the seven-part record and the argument is left dehydrated. |
| `AggregatedSerializer.RoundTripIff` | src/serializers/AggregatedActivitySerializer.ts:23-129 | `loads(dumps(a)) = a` for dehydrated aggregates if and only if the group has no `;;` and does not end in `;`, and the ids are at least one, free of `;` and non-empty after the first. |
| `AggregatedSerializer.CleanIff` | src/serializers/AggregatedActivitySerializer.ts:65-78 | A part survives splitting at `;;` if and only if it contains none and does not end in `;`. |
| `AggregatedSerializer.JoinedClean` | src/serializers/AggregatedActivitySerializer.ts:58-101 | The one part with single `;` in it, the joined ids, survives if and only if no id after the first is empty. |
| `AggregatedSerializer.CheckReserved` | src/serializers/utils.ts:3-9 | Throws if and only if one of the reserved strings occurs. |
| `Text.SplitParts` | src/serializers/AggregatedActivitySerializer.ts:78-101 | Splitting at one character gives parts free of it, and joining them gives back the text. |
| `Decimal.FixedRoundTrip` | src/utils/index.ts:5-11 | No millisecond is lost through `toFixed(6)` and back, before or after 1970; the text contains no `;` and is never the `-1` that stands for a missing date. |
| `ActivitySerializer.RoundTripIff` | src/serializers/ActivitySerializer.ts:16-65 | The identity of an activity survives if and only if every field is non-empty and comma-free, the target is not the text `null`, and what follows up to its first comma is accepted as a context. |
| `HashCache.ShardedHashCache.SetMany` | src/storage/redis/structures/hash.ts:84-94 | Writing to the shards is writing to one map, later pairs winning; each result says whether its field was new at that moment. |
| `HashCache.LastPairCounts` | src/storage/redis/structures/hash.ts:84-94 | Of several pairs for one field the last is what is stored. |
| `HashCache.CreatedIff` | src/storage/redis/structures/hash.ts:84-94 | A result is 1 if and only if its field was neither stored nor written earlier in the list. |
| `HashCache.ShardedHashCache.GetMany` | src/storage/redis/structures/hash.ts:166-177 | Reading is the lookup in one map for distinct fields, and the zip of `Object.values` with the request otherwise. |
| `HashCache.FetchedCorrectIff` | src/storage/redis/structures/hash.ts:166-177 | For stored fields the dictionary returned is right if and only if no field is asked for twice. |
| `HashCache.ShardedHashCache.DeleteMany` | src/storage/redis/structures/hash.ts:180-192 | Deleting from the shards is deleting from one map: exactly the named fields go. |
| `HashCache.ShardedHashCache.Count` | src/storage/redis/structures/hash.ts:195-204 | The sum over all shards is the size of the map. |
| `HashCache.ShardedHashCache.Delete` | src/storage/redis/structures/hash.ts:210-219 | The enumerated keys cover every shard a field can be in: afterwards the map is empty. |
| `HashCache.Layout.MergedHolds` | src/storage/redis/structures/hash.ts:150-164 | A field is in the map if and only if it is in its own shard, with that value. |
| `HashCache.ParseBigInt` | src/utils/index.ts:51-71 | Reads the digits with the first one least significant; other bases and characters throw. |
| `HashCache.ReadsReversed` | src/utils/index.ts:51-71 | The number parsed is that of the reversed text. |
| `HashCache.ParsedAsWrittenIff` | src/utils/index.ts:51-71 | A decimal text is parsed to the number it says if and only if it reads the same backwards. |
| `HashCache.Layout.FirstCharacterDecides` | src/storage/redis/structures/hash.ts:150-164 | So the first character of a digest alone decides among 2, 4, 8 or 16 shards. |
| `Aggregator.GroupActivities` | src/aggregators/base/BaseAggregator.ts:125-142 | Sorts the caller's array in place by id and folds it into groups; an id met twice in a group throws. |
| `Aggregator.GroupFoldIsGroupMap` | src/aggregators/base/BaseAggregator.ts:134-141 | For distinct ids the loop gives every group the aggregate of its own activities in order, and no other group. |
| `Aggregator.Aggregate` | src/aggregators/base/BaseAggregator.ts:43-48 | Lists each group's aggregate exactly once, ascending in `updated_at`. |
| `Aggregator.Rank` | src/aggregators/base/recentRank.ts:7-12 | Sorts the argument in place, ascending in `updated_at`, and is a permutation. |
| `Aggregator.Merge` | src/aggregators/base/BaseAggregator.ts:71-121 | New groups are listed once in `latest`; each group present already is paired once with its successor in `changed`, the successor being a copy with the new activities appended; a repeated id throws. |
| `Aggregator.IncrementalIff` | src/aggregators/base/BaseAggregator.ts:43-142 | For ids that all come later, merging a batch into the aggregates of the earlier ones equals aggregating everything from scratch if and only if the batch puts at most 15 activities in any group that exists already. |
| `Aggregator.AnySplitGivesOneResult` | src/aggregators/base/BaseAggregator.ts:71-142 | Any split of a sorted stream into batches of at most 15 a group gives the aggregates of the whole stream. |
| `Aggregator.SortConcat` | src/aggregators/base/BaseAggregator.ts:130-132 | Sorting concatenated batches is concatenating the sorted batches, when all later ids come later. |
| `RecentVerb.SameGroupIff` | src/aggregators/recentVerb.aggregator.ts:11-16 | Two activities share a group text if and only if they share verb and day. |
| `RecentVerb.GroupFitsIff` | src/aggregators/recentVerb.aggregator.ts:11-16 | Such a group survives storage if and only if the verb id contains no `;;`. |
| `Hydration.FetchIff` | src/storage/base/base_storage.ts:121-135 | Fetching the bodies of a slice succeeds if and only if no id is asked for twice and every body is stored, and then maps each id to its own body. |
| `Hydration.HydrateAllIsHydrate` | src/feeds/base/base.ts:414-434 | Every aggregate of a slice gets exactly its own bodies, in order. |
| `BodyStorage.InsertBodies` | src/storage/redis/RedisActivityStorage.ts:30-38 | Inserting activities into the sharded hash, by a dictionary of texts, leaves the texts of the store with all bodies put in one by one. |
| `BodyStorage.FetchIdentities` | src/storage/redis/RedisActivityStorage.ts:22-28 | Through shards and serializer a fetch succeeds if and only if no id is asked for twice and all are stored, and then gives each id the identity of its own body. |
| `BodyStorage.FetchesAgree` | src/storage/base/base_storage.ts:121-135 | That is when `Hydration.FetchBodies` succeeds, with bodies of the same identities. |
| `BodyStorage.TimeIsReadFromTarget` | src/serializers/ActivitySerializer.ts:40-65 | The time survives if and only if the target, read as a date, happens to be the time. |
| `AggregateStore.CoherentAsStoreGrows` | src/feeds/base/base.ts:175-180 | Bodies stored later leave a coherent feed coherent. |
| `AggregateStore.WriteBackHits` | src/feeds/aggregated_feed/AggregatedFeed.ts:427-432 | A stored aggregate text that is loaded, hydrated, dehydrated and dumped again is the identical text, so removing it by value hits. |
| `AggregateStore.TextIsInjective` | src/storage/redis/RedisTimelineStorage.ts:195-200 | Different aggregates of a feed have different texts, so nothing else is hit. |
| `AggregateStore.ScoresAreDates` | src/storage/redis/RedisTimelineStorage.ts:162-170 | Every text is stored under its aggregate's `updated_at`. |
| `AggregateStore.ScoreIsLatestAppended` | src/activity/AggregatedActivity.ts:168-171 | The score of an aggregate that only received activities is the latest of their times. |
| `AggregateStore.RankByUpdateTime` | src/storage/redis/RedisTimelineStorage.ts:142-183 | A member has exactly as many better ones in the sorted set as there are aggregates with a later `updated_at`. |
| `AggregateStore.NewestIsTop` | src/storage/redis/structures/sorted_set.ts:117-137 | Trimming the texts to n keeps min(n, all) aggregates, and each one left out has an earlier `updated_at` than each one kept. |
| `AggregateStore.WindowIsNewest` | src/feeds/base/base.ts:444-462 | Reading and hydrating the first n entries gives exactly the n newest aggregates, none twice, in strictly descending order of `updated_at`. |
| `WriteBack.SerializedIff` | src/storage/base/base_storage.ts:101-116 | Serializing a list of aggregates into a dictionary loses nothing if and only if their update times differ. |
| `WriteBack.LastIsSerialized` | src/storage/base/base_storage.ts:101-116 | Of the aggregates with one update time exactly the last is written. |
| `WriteBack.UpdatedMembers` | src/feeds/aggregated_feed/AggregatedFeed.ts:409-451 | After a write-back the timeline is (old minus deleted minus from) plus latest plus to, with the scores of the added. |
| `WriteBack.DiffRepresents` | src/feeds/aggregated_feed/AggregatedFeed.ts:466-491 | If a diff explains the step from one set of aggregates to the next, writing it back carries the sorted set from the one to the other. |
| `AggregateSteps.WindowSuffices` | src/feeds/aggregated_feed/AggregatedFeed.ts:104-116 | Merging into the 20 newest aggregates is merging into all, when every touched group is new or among them. |
| `AggregateSteps.AddRefines` | src/feeds/aggregated_feed/AggregatedFeed.ts:93-130 | Whatever order the diff comes in, an addition on the sorted set is the merge on the aggregates. |
| `AggregateSteps.RemovedAllIsShrunk` | src/activity/AggregatedActivity.ts:182-214 | Removing several retained activities, in any order, comes to dropping them all at once. |
| `AggregateSteps.RemovalDatesGroups` | src/activity/AggregatedActivity.ts:190-195 | Each aggregate that a removal shrinks is dated by the last activity it leaves there. |
| `AggregateSteps.RemovalKeepsLatest` | src/activity/AggregatedActivity.ts:190-195 | Where activities came in the order of their times, that is the latest time left. |
| `AggregateSteps.RemoveRefines` | src/feeds/aggregated_feed/AggregatedFeed.ts:137-252 | A removal on the sorted set is the removal on the aggregates: emptied ones go, others shrink. |
| `AggregateRemoval.FindAllHits` | src/feeds/aggregated_feed/AggregatedFeed.ts:166-201 | The search that strikes found ids off its list finds for every aggregate exactly its own ids among those wanted. |
| `AggregateRemoval.OrderedHits` | src/feeds/aggregated_feed/AggregatedFeed.ts:236-245 | Removing the hits in the caller's order succeeds and gives the shrunken aggregate. |
| `AggregateRemoval.PartsCover` | src/feeds/aggregated_feed/AggregatedFeed.ts:218-247 | Deleted and changed together account for every aggregate that was read, once. |
| `AggregatedFeed.AggregatedFeed.AddMany` | src/feeds/aggregated_feed/AggregatedFeed.ts:93-130 | Carries the merge out on the sorted set, or, exactly when the merge refuses a repeated id, writes nothing; returns the new and changed aggregates, dehydrated. Under the window condition the feed goes on representing the aggregates meant. |
| `AggregatedFeed.AggregatedFeed.RemoveMany` | src/feeds/aggregated_feed/AggregatedFeed.ts:137-252 | Trims, then carries the removal out on the sorted set; never fails on a valid feed, and returns the shrunken aggregates, dehydrated. |
| `AggregatedFeed.AggregatedFeed.UpdateFromDiff` | src/feeds/aggregated_feed/AggregatedFeed.ts:409-451 | Removes the texts of deleted and from, then adds those of latest and to, and returns these as `dumps` leaves them; fails if and only if a group is reserved. |
| `AggregatedFeed.AggregatedFeed.InsertActivities` | src/feeds/base/base.ts:175-180 | Puts the bodies in one by one; when none is replaced by another the feed stays valid. |
| `AggregatedFeed.StepRefines` | src/feeds/aggregated_feed/AggregatedFeed.ts:93-252 | Each operation keeps the sorted set in step with the aggregates meant, and these coherent. |
| `AggregatedFeed.RunRefines` | src/feeds/aggregated_feed/AggregatedFeed.ts:93-252 | So does every run from the empty feed, for every choice of trims, over an activity store that grows on the way. |
| `AggregatedFeed.StreamIsAggregated` | src/feeds/aggregated_feed/AggregatedFeed.ts:93-130 | An ascending stream that is added in small batches leaves texts that represent each group's aggregate of the whole stream. |
| `AggregatedFeed.FirstActivity` | src/feeds/aggregated_feed/AggregatedFeed.ts:93-130 | After its first activity a feed holds one text, which represents one coherent aggregate. |
| `AggregatedFeed.StoredInvariant` | src/feeds/aggregated_feed/AggregatedFeed.ts:93-252 | In the stored texts: no aggregate is empty, every activity lies in the aggregate of its own group, no two members share a group, an update time or an activity id. |
| `AggregatedFeed.OneAggregatePerGroupIff` | src/feeds/aggregated_feed/AggregatedFeed.ts:104-116 | After adding new ids every group has one aggregate if and only if every touched group was new or inside the window that was read. |
| `AggregatedFeed.OutsideWindowDuplicates` | src/feeds/aggregated_feed/AggregatedFeed.ts:104-116 | A group touched outside the window is opened a second time. |
| `Feed.BaseFeed.AddMany` | src/feeds/base/base.ts:216-240 | The ids go in with their scores, the counts returned sum to the growth, and then the feed is trimmed to `maxLength` if asked to and the dice say so. |
| `Feed.BaseFeed.RemoveMany` | src/feeds/base/base.ts:248-273 | The ids go, the counts returned sum to the shrinkage, and then the same. |
| `Feed.BaseFeed.Trim` | src/feeds/base/base.ts:280-283 | A missing or zero length means `maxLength`. |
| `Feed.BaseFeed.GetActivitySlice` | src/feeds/base/base.ts:444-462 | The bodies of the requested slice in timeline order; throws if and only if one is missing. |
| `Feed.BaseFeed.GetItem` | src/feeds/base/base.ts:362-402 | Start 0 without a stop throws, so does a negative bound; an empty range answers without a read; otherwise the bodies of the range, or null when one is missing. |
| `Feed.ReadIsComplete` | src/feeds/base/base.ts:414-462 | When bodies were stored first, the first k entries come back as full activities in order, none lost, repeated or exchanged. |
| `Fanout.FeedManager.FanoutChunk` | src/feedManagers/base.ts:320-346 | Every user of the chunk receives the operation as often as listed, nobody else and no other feed class anything. |
| `Fanout.FeedManager.FanoutClass` | src/feedManagers/base.py:299-333 | Chunking reaches every follower exactly as often as listed, for every chunk size. |
| `Chunks.ConcatOfChunks` | src/feedManagers/base.py:324-332 | Chunks joined are the whole list, none empty or longer than the size. |
| `Chunks.ChunksAreFull` | src/feedManagers/base.py:324-332 | All chunks are full but possibly the last. |
| `Fanout.FeedManager.HandleJob` | src/task/setupTask.ts:162-181 | A job reaches every feed class, once each. |
| `Fanout.FeedManager.DrainQueue` | src/task/setupTask.ts:129-182 | When the queue drains in order, every feed has received exactly the direct, unchunked sequence of operations, with only trims in between; it reads like its whole untrimmed history wherever trims cannot reach, and holds nothing that a later job removed. |
| `Fanout.DirectHolds` | src/task/setupTask.ts:129-182 | That sequence leaves an id in the feed if and only if some job adds it and no later one removes it, or it was there and none removes it. |
| `Fanout.CountDistinct` | src/task/setupTask.ts:164-174 | Among distinct followers that is once each. |
| `Fanout.DrainedFeedReadsAsDirect` | src/feedManagers/base.py:335-357 | Whatever the dice, the first k entries after the jobs are those of the direct, untrimmed application, if and only if each of them has been among the best `maxLength` ever since it was last added. |
| `Fanout.RedeliveryChangesNothing` | src/task/setupTask.ts:129-182 | On a flat feed, delivering an operation several times in a row is delivering it once. |
| `Redelivery.RedeliveryIff` | src/feeds/aggregated_feed/AggregatedFeed.ts:93-130 | On an aggregated feed, adding a batch a second time leaves the groups as they were if and only if the batch is empty or some group it touches could retain one more activity before; else the ones pushed out are counted again. |
| `Redelivery.RoomIffRetained` | src/activity/AggregatedActivity.ts:154-180 | For activities not retained before, that is so if and only if some activity of the batch is retained now. |
| `Fanout.PortVisitsAllIff` | src/task/setupTask.ts:172-179 | The early return of the port visits everyone if and only if there is nobody to visit, or one feed class and no more followers than one chunk holds. |
| `Fanout.VisitPlace` | src/task/setupTask.ts:162-181 | The visits meant are class after class and, within a class, follower after follower. |
| `Fanout.PortVisitsBegin` | src/task/setupTask.ts:172-179 | What the early return leaves is the beginning of these visits, at most one chunk long. |
| `Follow.LastSegment` | src/utils/splitId.ts:1-9 | For a one-character separator the result is the segment behind the last one. |
| `Follow.SplitIdIsLastSegment` | src/utils/splitId.ts:1-9 | For any separator the result contains none, and is the whole id or the end of it right behind one. |
| `Follow.SplitIdIff` | src/utils/splitId.ts:1-9 | The result is whatever ends the id behind a separator, for every id, if and only if the separator cannot overlap itself. |
| `Follow.MatchesIff` | src/task/setupTask.ts:293-299 | An activity belongs to the users if and only if its actor or its target is one of them or, with split ids, ends in one of them behind a separator. |
| `Follow.MatchingHolds` | src/task/setupTask.ts:293-299 | Fails if and only if ids are split and a target is missing; otherwise exactly the activities whose actor or target is among the users are collected. |
| `Follow.CollectedUnsplit` | src/task/setupTask.ts:226-240 | With unsplit ids exactly the activities whose actor or target is one of the users are collected. |
| `Follow.CollectedSplit` | src/task/setupTask.ts:293-299 | With split ids exactly those whose actor or target ends in one of the users right behind a separator. |
| `Follow.UnfollowFailsIff` | src/task/setupTask.ts:289-315 | The unfollow worker fails if and only if a body is missing, or ids are split and an activity in the trimmed feed has no target. |
| `Follow.UnfollowIsExact` | src/task/setupTask.ts:267-315 | Of the trimmed feed exactly the activities survive whose actor and target name none of the sources, scores unchanged; names are read off the ids when the separator cannot overlap itself. |
| `Follow.UnfollowOne` | src/task/setupTask.ts:289-314 | The loop body leaves one feed so, and on failure has done no more than trim it. |
| `Follow.UnfollowMany` | src/task/setupTask.ts:287-315 | Every feed of the user is left so; succeeds if and only if each one can be. When one fails, those before it are done, it is trimmed, and those behind it are untouched. |
| `Follow.CollectFromAll` | src/task/setupTask.ts:222-241 | Collects from each target's user feed in turn exactly the matching ids, or throws. |
| `Follow.FollowMany` | src/task/setupTask.ts:197-251 | What was collected, possibly nothing, goes into every feed of the user, trimmed or not; when collecting throws, no feed changes. |
| `Follow.GotAddedHolds` | src/task/setupTask.ts:243-250 | A feed of the user then holds only what it held and what was collected, of that at least the best `maxLength`, and what was collected under its own score. |
| `Follow.CopiedMatch` | src/task/setupTask.ts:226-240 | Everything a follow copies is stored and belongs to one of the followed users. |
| `Follow.CopiedHolds` | src/task/setupTask.ts:222-241 | Copied is exactly what is among the first `limit` of a target's user feed and belongs to that target. |
| `Follow.FollowThenUnfollowIff` | src/task/setupTask.ts:199-315 | Follow then unfollow restores a feed if and only if it held nothing of the followed users and the copies pushed none of its entries over the edge. |
| `Protocol.AddUserActivityIsSound` | src/feedManagers/base.ts:138-163 | The sequence of writes refers to nothing it has not stored before. |
| `Protocol.RemoveUserActivitySoundIff` | src/feedManagers/base.ts:170-194 | So does a removal if and only if it notifies nobody or the body was stored: its jobs carry the id. |
| `Protocol.BatchImportIsSound` | src/feedManagers/base.py:362-416 | So does an import, for every way of chunking. |
| `Protocol.WorkIsSound` | src/task/setupTask.ts:129-315 | So does every worker on a job whose ids are stored. |
| `Protocol.StepKeepsIntegrity` | src/feedManagers/base.ts:138-194 | Every step keeps: each id in a timeline, in a queued job and in a running process has its body stored. |
| `Protocol.ReferentialIntegrity` | src/task/setupTask.ts:131-315 | So it holds in every interleaving of add, remove, import, follow, unfollow, workers, redeliveries and trims, and no hydration ever meets a missing body. |
| `Protocol.ReadsNeverFail` | src/activity/DehydratedActivity.ts:28-32 | Any read of any timeline at any moment of any run returns all its bodies, each under its own id. |
| `UnawaitedImport.RaceIff` | src/feedManagers/base.ts:377-383 | From every state in which integrity holds: insertions and additions that run side by side can leave an id without its body if and only if some body is not stored at the start. |
| `UnawaitedImport.InFlightIsReached` | src/feedManagers/base.ts:377-383 | The moment after the import's loop is reached by steps of the protocol, from any state. |
| `UnawaitedImport.UnawaitedImportIff` | src/feedManagers/base.ts:359-406 | The import as written, whose first write of each chunk is sent before any addition, can do so if and only if it brings an activity that is neither stored already nor the first of a chunk. |
| `UnawaitedImport.ChunksOfOneAreSafe` | src/storage/redis/structures/hash.ts:84-94 | With chunks of one activity it never does. |
| `UnawaitedImport.UnawaitedImportBreaksIntegrity` | src/feedManagers/base.ts:377-383 | Two new activities in one chunk can leave a timeline that refers to a body that is not stored. |
| `ProtocolEffects.FinishedIsRan` | src/task/setupTask.ts:131-315 | Letting one process take all its steps comes to running its program from start to end. |
| `ProtocolEffects.AddUserActivityDoes` | src/feedManagers/base.ts:138-163 | Run undisturbed, an addition stores the body, adds the id to the personal feed and queues one job for each follower group, in order, and does nothing else. |
| `ProtocolEffects.RemoveUserActivityDoes` | src/feedManagers/base.ts:170-194 | A removal takes the id out of the personal feed and queues one job for each follower group; the body stays stored. |
| `ProtocolEffects.BatchImportDoes` | src/feedManagers/base.py:388-416 | An import stores all bodies, adds all ids to the personal feed and queues one job for each chunk and group; no other timeline changes. |
| `ProtocolEffects.ImportIgnoresChunkSize` | src/feedManagers/base.py:388-400 | The chunk size changes neither the store nor any timeline. |
| `ProtocolEffects.JobsDeliver` | src/task/setupTask.ts:151-181 | The jobs of one fanout, handled one after the other, reach every user of every group in every feed class, whatever the grouping, and change no other timeline. |
| `ProtocolEffects.AddReachesFollowers` | src/feedManagers/base.ts:138-163 | Publishing as a whole: once its jobs are done the activity is stored, in the personal feed, and in the feeds of exactly the followers. |
| `ProtocolEffects.FollowDoes` | src/task/setupTask.ts:217-250 | A whole follow adds what it collected from the targets to every feed of the user, and changes nothing else. |
| `ProtocolEffects.UnfollowDoes` | src/task/setupTask.ts:287-314 | A whole unfollow takes exactly what belongs to the sources out of every feed of the user, and changes nothing else. |
| `ProtocolRuns.WorkedOff` | src/task/setupTask.ts:131-181 | Workers that pick up queued jobs in order and run to their ends deliver exactly these jobs, and leave the rest of the queue and all other processes alone. |
| `ProtocolRuns.Redelivered` | src/task/setupTask.ts:131-181 | A job picked up for redelivery is still queued afterwards; the next turn delivers it a second time and takes it out. |
| `ProtocolRuns.FanoutTwice` | src/task/setupTask.ts:151-181 | For a fanout job the second delivery changes no timeline. |
| `ProtocolRuns.Served` | src/feedManagers/base.ts:138-194 | A call, its program and its jobs form a legal run, from any state, whose end is what program and jobs bring about. |
| `ServedRequests.Published` | src/feedManagers/base.ts:138-163 | Such a run of an addition stores the body and puts the id into the personal feed and the feeds of exactly the followers; the queue is as before. |
| `ServedRequests.Withdrawn` | src/feedManagers/base.ts:170-194 | One of a removal takes the id out of all these feeds and keeps the body. |
| `ServedRequests.Imported` | src/feedManagers/base.py:362-416 | One of an import stores all bodies and puts all ids where one would go, however it is chunked. |
| `ServedRequests.Followed` | src/task/setupTask.ts:197-251 | One of a follow adds to every feed of the user what is copied from the targets, and changes no other timeline. |
| `ServedRequests.CopiesHold` | src/task/setupTask.ts:222-241 | Copied is what was seen in a target's user feed and belongs to that target. |
| `ServedRequests.Unfollowed` | src/task/setupTask.ts:267-315 | One of an unfollow takes out of every feed of the user what belongs to the sources, and changes no other timeline. |
| `ServedRequests.TrimLeavesBest` | src/storage/redis/structures/sorted_set.ts:117-137 | A trim leaves of a timeline the best `max` of the sorted set behind it, and nothing else changes. |
| `ServedRequests.ReadCrashesIff` | src/activity/DehydratedActivity.ts:28-32 | A worker's read fails if and only if a body of what it reads is missing. |
| `Words32.SignRepair` | src/utils/v1time.ts:86-88 | The shift-and-parity expression is the unsigned reading of a signed 32-bit word, for every word. |
| `Words32.OrWord` | src/utils/v1time.ts:70-75 | Four bytes or-ed together are the signed reading of the big-endian word. |
| `Words32.OrHigh` | src/utils/v1time.ts:77-84 | The two overlapping halves of the high word are or-ed together without loss, the version nibble masked off. |
| `V1Time.Parse` | src/utils/v1time.ts:26-42 | The bytes are the pairs of adjacent hex digits from the left, at most 16, the missing ones 0. |
| `V1Time.OctetsIgnoreCase` | src/utils/v1time.ts:26-42 | Upper and lower case read alike. |
| `V1Time.EightOctetsCount` | src/utils/v1time.ts:26-97 | A text of fewer than seven octets is rejected, and nothing behind the eighth octet has any influence. |
| `V1Time.V1TimeOf` | src/utils/v1time.ts:61-96 | Throws if and only if bit 4 of the version byte is clear; otherwise the value is the time stamp the bytes spell out, in milliseconds since 1970. |
| `V1Time.OctetsOfCanonical` | src/utils/v1time.ts:30-34 | Reading the canonical text of 16 bytes gives back the bytes. |
| `V1Time.V1TimeInvertsLayout` | src/utils/v1time.ts:26-97 | For every 60-bit time stamp T, whatever clock sequence and node, the canonical text decodes to T/10000 - 12219292800000 exactly (sections 4.1.2 and 4.1.4 of RFC 4122). |
| `V1Time.ScoresIncrease` | src/utils/v1time.ts:52-97 | Scores increase strictly with the time stamp. |
| `V1Time.TextOrderIsLowWordOrder` | src/utils/v1time.ts:70-84 | UUIDs with different low words are ordered as texts if and only if by those low words. |
| `V1Time.LaterUuidCanSortFirst` | src/utils/v1time.ts:52-97 | A later UUID can sort before an earlier one as a text. |
| `HashCode.HashCode` | src/utils/index.ts:84-93 | The loop computes the base-31 polynomial of the string, reduced to a signed 32-bit number. |
| `HashCode.PolynomialOfJoined` | src/utils/index.ts:84-93 | Of two texts joined, the first counts 31 to the length of the second: earlier characters are the more significant ones. |
| `HashCode.HashCodePositive` | src/utils/index.ts:103-115 | The corrected value lies between 0 and 2^32 inclusive. |
| `HashCode.PositiveIsInjective` | src/utils/index.ts:103-115 | The correction is injective on signed 32-bit values; only the least value reaches 2^32. |

## Left out

- AggregatedSerializer.RoundTripIff: is about the dehydrating form, which the feeds use; texts with malformed dates or counts, which the code loads as invalid dates and NaN, are errors in the model, and no `dumps` produces them.
- ActivitySerializer.RoundTripIff: is about the five identity fields; the context is read from the wrong place and not stated, the time is in BodyStorage.TimeIsReadFromTarget. Which texts `JSON.parse` accepts is a parameter.
- BodyStorage.FetchIdentities: a text's tail of context and time is a parameter, and every stored activity is one that loads, which ActivitySerializer.RoundTripIff makes exact.
- AggregateSteps.RemoveRefines: takes hydrated activities with their time intact, see "Code, comments and intent".
- TimelineRuns.Simulation: add lists are processed in the given order; JavaScript puts integer-like object keys first, which changes no final state here.
- HashCache.ShardedHashCache.GetMany: fields that look like integers, whose order `Object.values` changes, are not modelled; MD5 is an arbitrary function from fields to hex texts.
- AggregatedFeed.RunRefines: the window condition, distinct update times and stored bodies are conditions on each operation; the first is shown to be exact by AggregatedFeed.OneAggregatePerGroupIff, the second by WriteBack.SerializedIff.
- AggregatedFeed.AggregatedFeed.AddMany: asks for stored bodies and storable groups, as the representation it keeps needs them; UpdateFromDiff says what happens to a reserved group. `currentActivities` passed in by the caller, and a removal given aggregates instead of activities, are not modelled; removal is by activity.
- Aggregates.AggregatedActivity.GetHydrated: asks that every body is there, where the code would store undefined; Hydration.FetchIff says when it is.
- V1Time.V1TimeInvertsLayout: scores are exact rationals; rounding to binary64 is not modelled.
- Decimal.FixedRoundTrip: dates are whole milliseconds, and digits below the millisecond are exact.
- Aggregator.GroupActivities: JavaScript's sort is specified by a stable insertion sort; the comparison function never reports equality, so the order of two activities with one id is the engine's choice, but a repeated id in a group throws either way.
- Follow.UnfollowIsExact: states the flat feeds; items that are aggregates have no actor or target of their own.
- ServedRequests.Published: the runs that serve requests are undisturbed ones; what holds of all interleavings is in Protocol.ReferentialIntegrity.
- Protocol.ReferentialIntegrity: timelines are sets and a trim may drop anything, which covers what each trim really drops; a removal request names an activity that was stored before, which Protocol.RemoveUserActivitySoundIff shows to be needed.
- Feed.BaseFeed.AddMany: scores are a total function of ids; the `onUpdateFeed` hook is not modelled.
- Fanout.FeedManager.DrainQueue: all feed classes are flat ones; AggregatedFeed.RunRefines and Redelivery.RedeliveryIff are about the aggregated ones.
- AggregatedFeed.StreamIsAggregated: is about runs without trims and removals; AggregatedFeed.RunRefines has both.
- UnawaitedImport.UnawaitedImportIff: starts when the import has sent all it sends at once; other processes may run in any order from there.
- HashCache.ShardedHashCache.DeleteMany: the dictionary of results is not stated.
- Redis, Cassandra, BullMQ, statsd and Express: connections, pipelines and scripts are foreign calls.
- Cassandra timelines: their trim depends on server-side write timestamps.
- Ascending reads, filter and ordering arguments of `getSliceFromStorage`: the ordering test throws on a list and `REV` is always set.
- Score-range arguments of `getResults`: its type test rejects every value that is not 0.
- Notification feeds and list storages: key, argument order and length disagree with each other in the code.
- `FallbackHashCache`, `FallbackRedisListCache` and `RedisListCache`: nothing in the repository uses them.
- `isEqual`, the argument guards, the verb registry, configuration, metrics, server and examples: easy, or unrelated to the feeds.
- Formatting of days: a parameter that gives ten characters without a semicolon.
