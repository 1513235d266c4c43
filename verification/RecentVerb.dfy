/** src/aggregators/recentVerb.aggregator.ts: one group per verb and day. The formatting of
    days is a parameter. */
module RecentVerb {
  import opened Activities
  import opened Text
  import opened AggregatedSerializer

  type DayFormat = int -> string

  /** `YYYY-MM-DD`: ten characters, none of them a semicolon. */
  ghost predicate FormatsDays(dayOf: DayFormat) {
    forall time :: |dayOf(time)| == 10 && ';' !in dayOf(time)
  }

  function GetGroup(dayOf: DayFormat, activity: Activity): string {
    activity.verbId + "-" + dayOf(activity.time)
  }

  /** The text identifies verb and day, although a verb id may itself contain a dash. */
  lemma SameGroupIff(dayOf: DayFormat, a: Activity, b: Activity)
    requires FormatsDays(dayOf)
    ensures GetGroup(dayOf, a) == GetGroup(dayOf, b)
       <==> a.verbId == b.verbId && dayOf(a.time) == dayOf(b.time)
  {
    var s, t := GetGroup(dayOf, a), GetGroup(dayOf, b);
    assert s[..|s| - 11] == a.verbId && s[|s| - 10..] == dayOf(a.time);
    assert t[..|t| - 11] == b.verbId && t[|t| - 10..] == dayOf(b.time);
  }

  /** Such a group survives storage exactly when the verb id has no separator in it. */
  lemma GroupFitsIff(dayOf: DayFormat, a: Activity)
    requires FormatsDays(dayOf)
    ensures GroupFits(GetGroup(dayOf, a)) <==> !Includes(a.verbId, SEP)
  {
    var s := GetGroup(dayOf, a);
    var day := dayOf(a.time);
    assert s[|s| - 1] == day[9];
    assert forall k :: |a.verbId| <= k < |s| ==> s[k] != ';' by {
      assert s == a.verbId + ("-" + day) && ';' !in "-" + day;
    }
    forall j ensures OccursAt(s, SEP, j) <==> OccursAt(a.verbId, SEP, j) {
      OccursSep(s, j);
      OccursSep(a.verbId, j);
    }
    if Includes(a.verbId, SEP) {
      var j :| 0 <= j <= |a.verbId| && OccursAt(a.verbId, SEP, j);
      assert OccursAt(s, SEP, j);
    }
  }
}
