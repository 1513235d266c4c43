/** src/activity/Activity.ts: the stored identity of an activity. */
module Activities {
  import opened Results

  /** The constructor replaces a missing (or zero) time by the present. */
  type Time = t: int | t != 0 witness 1

  datatype Activity = Activity(
    id: string, actorId: string, verbId: string, objectId: string, targetId: Option<string>, time: Time)

  function IdsOf(activities: seq<Activity>): (ids: seq<string>)
    ensures |ids| == |activities|
    ensures forall i :: 0 <= i < |ids| ==> ids[i] == activities[i].id
  {
    seq(|activities|, i requires 0 <= i < |activities| => activities[i].id)
  }

  /** No two activities of the list share an id. */
  predicate DistinctIds(activities: seq<Activity>) {
    forall i, j :: 0 <= i < j < |activities| ==> activities[i].id != activities[j].id
  }
}
