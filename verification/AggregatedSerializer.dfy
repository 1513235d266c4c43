/** src/serializers/AggregatedActivitySerializer.ts (dehydrating form) and
    src/serializers/utils.ts: records of seven parts separated by ";;", one of which is a
    list of ids separated by ";". */
module AggregatedSerializer {
  import opened Results
  import opened Text
  import opened Decimal
  import opened Aggregates
  import opened Activities

  const SEP := ";;"
  const IDENTIFIER := "v3"

  function DumpDate(date: Option<int>): string {
    if date.None? then "-1" else Fixed(date.value)
  }

  function IdsDumped(a: Agg): seq<string> {
    if a.dehydrated then a.activityIds else IdsOf(a.activities)
  }

  function Parts(a: Agg): seq<string> {
    [a.group, DumpDate(a.createdAt), DumpDate(a.updatedAt), DumpDate(a.seenAt), DumpDate(a.readAt),
     Join(IdsDumped(a), ";"), Digits(a.minimized)]
  }

  function DumpText(a: Agg): Result<string> {
    if Includes(a.group, SEP) then Err(SerializationError) else Ok(IDENTIFIER + Join(Parts(a), SEP))
  }

  /** None for a text that is not a date. */
  function LoadDate(text: string): Option<Option<int>> {
    if text == "-1" then Some(None)
    else
      var d := ParseFixed(text);
      if d.None? then None else Some(d)
  }

  function LoadText(text: string): Result<Agg> {
    var parts := Split(if |text| < 2 then "" else text[2..], SEP);
    if |parts| < 7 then Err(SerializationError)
    else
      var created, updated := LoadDate(parts[1]), LoadDate(parts[2]);
      var seen, read := LoadDate(parts[3]), LoadDate(parts[4]);
      var minimized := ParseNat(parts[6]);
      if created.None? || updated.None? || seen.None? || read.None? || minimized.None? then
        Err(SerializationError)
      else
        Ok(Agg(parts[0], [], created.value, updated.value, seen.value, read.value,
               minimized.value, Split(parts[5], ";"), true))
  }

  // ---- the exact condition under which a record survives ----

  /** The ids fit in their list: there is one, none contains ";", none after the first is empty. */
  ghost predicate IdsFit(ids: seq<string>) {
    ids != [] && (forall i :: 0 <= i < |ids| ==> ';' !in ids[i]) && forall i :: 1 <= i < |ids| ==> ids[i] != ""
  }

  ghost predicate GroupFits(group: string) {
    !Includes(group, SEP) && (group != "" ==> group[|group| - 1] != ';')
  }

  lemma OccursSep(s: string, j: int)
    ensures OccursAt(s, SEP, j) <==> 0 <= j < |s| - 1 && s[j] == ';' && s[j + 1] == ';'
  {
    if 0 <= j < |s| - 1 {
      assert s[j..j + 2] == [s[j], s[j + 1]];
    }
  }

  lemma CleanIff(p: string)
    ensures Clean(p, SEP) <==> GroupFits(p)
  {
    var s := p + SEP;
    forall j | 0 <= j < |p| ensures OccursAt(s, SEP, j) <==> OccursAt(p, SEP, j) || (j == |p| - 1 && p[j] == ';') {
      OccursSep(s, j);
      OccursSep(p, j);
    }
    if Includes(p, SEP) {
      var j :| 0 <= j <= |p| && OccursAt(p, SEP, j);
      assert OccursAt(s, SEP, j);
    }
    if p != "" && p[|p| - 1] == ';' {
      assert OccursAt(s, SEP, |p| - 1);
    }
  }

  lemma NoSemicolonIsClean(p: string)
    requires ';' !in p
    ensures Clean(p, SEP) && !Includes(p, SEP)
  {
    forall j ensures !OccursAt(p, SEP, j) {
      OccursSep(p, j);
    }
    CleanIff(p);
  }

  /** Where ids without ";" are joined, ";;" can only come from an empty id after the first. */
  lemma {:induction false} JoinedClean(ids: seq<string>)
    requires ids != [] && forall i :: 0 <= i < |ids| ==> ';' !in ids[i]
    ensures Clean(Join(ids, ";"), SEP) <==> forall i :: 1 <= i < |ids| ==> ids[i] != ""
  {
    if |ids| == 1 {
      NoSemicolonIsClean(ids[0]);
    } else {
      var x, rest := ids[0], ids[1..];
      var tail := Join(rest, ";");
      var j := Join(ids, ";");
      JoinedClean(rest);
      assert j == x + ";" + tail;
      CleanAfterId(x, tail);
      FirstChar(rest);
      assert forall i :: 1 <= i < |ids| ==> ids[i] == rest[i - 1];
      if rest[0] != "" && forall i :: 1 <= i < |rest| ==> rest[i] != "" {
        assert forall i :: 1 <= i < |ids| ==> ids[i] != "";
      }
      if forall i :: 1 <= i < |ids| ==> ids[i] != "" {
        assert forall i :: 0 <= i < |rest| ==> rest[i] == ids[i + 1];
      }
    }
  }

  lemma FirstChar(ids: seq<string>)
    requires ids != [] && ';' !in ids[0]
    ensures (Join(ids, ";") + SEP)[0] == ';' <==> ids[0] == ""
  {
    if ids[0] != "" {
      assert (Join(ids, ";") + SEP)[0] == ids[0][0];
    }
  }

  lemma CleanAfterId(x: string, tail: string)
    requires ';' !in x
    ensures Clean(x + ";" + tail, SEP) <==> (tail + SEP)[0] != ';' && Clean(tail, SEP)
  {
    var p := x + ";" + tail;
    var s, t := p + SEP, tail + SEP;
    assert s == x + ";" + t;
    forall j | 0 <= j < |p|
      ensures OccursAt(s, SEP, j) <==> (j == |x| && t[0] == ';') || (j > |x| && OccursAt(t, SEP, j - |x| - 1))
    {
      OccursSep(s, j);
      OccursSep(t, j - |x| - 1);
    }
    assert OccursAt(s, SEP, |x|) <==> t[0] == ';';
    if Clean(p, SEP) {
      forall k | 0 <= k < |tail| ensures !OccursAt(t, SEP, k) {
        assert !OccursAt(s, SEP, k + |x| + 1);
      }
    }
  }

  // ---- splitting a joined record ----

  lemma {:induction false} SplitJoinClean(parts: seq<string>)
    requires parts != [] && !Includes(parts[|parts| - 1], SEP)
    requires forall i :: 0 <= i < |parts| - 1 ==> Clean(parts[i], SEP)
    ensures Split(Join(parts, SEP), SEP) == parts
  {
    if |parts| == 1 {
      SplitOne(parts[0], SEP);
    } else {
      SplitHead(parts[0], SEP, Join(parts[1..], SEP));
      SplitJoinClean(parts[1..]);
    }
  }

  /** The first unclean part comes back shorter. */
  lemma {:induction false} SplitJoinUnclean(parts: seq<string>, k: nat)
    requires k < |parts| - 1 && !Clean(parts[k], SEP)
    requires forall i :: 0 <= i < k ==> Clean(parts[i], SEP)
    ensures k < |Split(Join(parts, SEP), SEP)|
    ensures |Split(Join(parts, SEP), SEP)[k]| < |parts[k]|
  {
    SplitHead(parts[0], SEP, Join(parts[1..], SEP));
    if k > 0 {
      SplitJoinUnclean(parts[1..], k - 1);
    }
  }

  lemma DatesAreClean(a: Agg)
    ensures forall i :: 1 <= i <= 4 ==> Clean(Parts(a)[i], SEP)
    ensures LoadDate(Parts(a)[1]) == Some(a.createdAt) && LoadDate(Parts(a)[2]) == Some(a.updatedAt)
    ensures LoadDate(Parts(a)[3]) == Some(a.seenAt) && LoadDate(Parts(a)[4]) == Some(a.readAt)
  {
    var dates := [a.createdAt, a.updatedAt, a.seenAt, a.readAt];
    forall i | 1 <= i <= 4 ensures Clean(Parts(a)[i], SEP) && LoadDate(Parts(a)[i]) == Some(dates[i - 1]) {
      DateIsClean(dates[i - 1]);
      assert Parts(a)[i] == DumpDate(dates[i - 1]);
    }
  }

  lemma DateIsClean(date: Option<int>)
    ensures Clean(DumpDate(date), SEP) && LoadDate(DumpDate(date)) == Some(date)
  {
    if date.Some? {
      FixedRoundTrip(date.value);
    }
    NoSemicolonIsClean(DumpDate(date));
  }

  /** A dehydrated aggregate can be written and read back unchanged exactly when its group
      and its ids fit; nothing else about it matters. */
  lemma RoundTripIff(a: Agg)
    requires a.dehydrated && a.activities == []
    ensures DumpText(a).Ok? && LoadText(DumpText(a).value) == Ok(a)
       <==> GroupFits(a.group) && IdsFit(a.activityIds)
  {
    if !Includes(a.group, SEP) {
      var parts := Parts(a);
      var text := IDENTIFIER + Join(parts, SEP);
      assert text[2..] == Join(parts, SEP);
      CleanIff(a.group);
      DatesAreClean(a);
      if GroupFits(a.group) && IdsFit(a.activityIds) {
        FittingLoads(a);
      } else if !Clean(a.group, SEP) {
        SplitJoinUnclean(parts, 0);
      } else if a.activityIds != [] && Clean(parts[5], SEP) {
        IdsThatDoNotFit(a);
      } else if a.activityIds != [] {
        SplitJoinUnclean(parts, 5);
        SplitParts(Split(text[2..], SEP)[5], ';');
      }
    }
  }

  lemma FittingLoads(a: Agg)
    requires a.dehydrated && a.activities == [] && GroupFits(a.group) && IdsFit(a.activityIds)
    ensures DumpText(a).Ok? && LoadText(DumpText(a).value) == Ok(a)
  {
    var parts := Parts(a);
    assert (IDENTIFIER + Join(parts, SEP))[2..] == Join(parts, SEP);
    CleanIff(a.group);
    DatesAreClean(a);
    JoinedClean(a.activityIds);
    MinimizedIsClean(a.minimized);
    SplitJoinClean(parts);
    SplitJoin(a.activityIds, ';');
  }

  lemma MinimizedIsClean(n: nat)
    ensures !Includes(Digits(n), SEP) && ParseNat(Digits(n)) == Some(n)
  {
    DigitsRoundTrip(n);
    assert ';' !in Digits(n);
    NoSemicolonIsClean(Digits(n));
  }

  lemma IdsThatDoNotFit(a: Agg)
    requires a.dehydrated && a.activityIds != [] && !IdsFit(a.activityIds)
    requires Clean(Join(a.activityIds, ";"), SEP)
    ensures exists i :: 0 <= i < |a.activityIds| && ';' in a.activityIds[i]
    ensures forall text :: LoadText(text).Ok? ==> LoadText(text).value.activityIds != a.activityIds
  {
    if forall i :: 0 <= i < |a.activityIds| ==> ';' !in a.activityIds[i] {
      JoinedClean(a.activityIds);
      assert false;
    }
    forall text | LoadText(text).Ok? ensures LoadText(text).value.activityIds != a.activityIds {
      SplitParts(Split(if |text| < 2 then "" else text[2..], SEP)[5], ';');
    }
  }

  // ---- the class methods ----

  /** `checkReserved`. */
  method CheckReserved(value: string, reservedCharacters: seq<string>) returns (r: Result<()>)
    requires forall i :: 0 <= i < |reservedCharacters| ==> reservedCharacters[i] != ""
    ensures r.Err? <==> exists i :: 0 <= i < |reservedCharacters| && Includes(value, reservedCharacters[i])
    ensures r.Err? ==> r.error == SerializationError
  {
    for i := 0 to |reservedCharacters|
      invariant forall j :: 0 <= j < i ==> !Includes(value, reservedCharacters[j])
    {
      if IndexOf(value, reservedCharacters[i]).Some? {
        assert Includes(value, reservedCharacters[i]);
        return Err(SerializationError);
      }
    }
    r := Ok(());
  }

  /** Writing dehydrates the aggregate it is given; a reserved group throws before that. */
  method Dumps(aggregated: AggregatedActivity) returns (r: Result<string>)
    modifies aggregated
    ensures r == DumpText(old(aggregated.agg))
    ensures aggregated.agg ==
      if r.Ok? && !old(aggregated.agg).dehydrated then Dehydrate(old(aggregated.agg)) else old(aggregated.agg)
  {
    var a := aggregated.agg;
    var parts := [a.group];
    var reserved := CheckReserved(a.group, [SEP]);
    if reserved.Err? {
      assert exists i :: 0 <= i < 1 && Includes(a.group, [SEP][i]);
      return Err(SerializationError);
    }
    assert [SEP][0] == SEP;
    var dates := [a.createdAt, a.updatedAt, a.seenAt, a.readAt];
    for i := 0 to 4
      invariant parts == Parts(a)[..i + 1] && aggregated.agg == old(aggregated.agg)
    {
      parts := parts + [DumpDate(dates[i])];
    }
    if !aggregated.agg.dehydrated {
      var dehydrated := aggregated.GetDehydrated();
    }
    parts := parts + [Join(aggregated.agg.activityIds, ";")];
    parts := parts + [Digits(aggregated.agg.minimized)];
    assert parts == Parts(a);
    r := Ok(IDENTIFIER + Join(parts, SEP));
  }
}
