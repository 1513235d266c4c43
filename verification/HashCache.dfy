/** src/storage/redis/structures/hash.ts: one logical hash spread over `numberOfKeys`
    Redis hashes by the MD5 digest of the field. The digest is a parameter. */
module HashCache {
  import opened Results
  import Decimal

  type Hash = map<string, string>

  // ---- choosing the shard ----

  function Keyspace(numberBase: nat): string
    requires numberBase == 10 || numberBase == 16
  {
    if numberBase == 10 then "0123456789" else "0123456789abcdef"
  }

  function Place(c: char, keyspace: string): Option<nat> {
    if keyspace == "" then None
    else if keyspace[0] == c then Some(0)
    else
      var rest := Place(c, keyspace[1..]);
      if rest.None? then None else Some(rest.value + 1)
  }

  /** The number whose FIRST character is the least significant digit. */
  function FirstIsLowest(s: string, keyspace: string): Option<nat> {
    if s == "" then Some(0)
    else
      var d, rest := Place(s[0], keyspace), FirstIsLowest(s[1..], keyspace);
      if d.None? || rest.None? then None else Some(rest.value * |keyspace| + d.value)
  }

  /** The loop runs from the last character down, so it reads the text backwards. */
  method ParseBigInt(numberString: string, numberBase: nat) returns (r: Result<nat>)
    ensures (numberBase != 10 && numberBase != 16) ==> r == Err(TypeError)
    ensures numberBase == 10 || numberBase == 16 ==>
      var n := FirstIsLowest(numberString, Keyspace(numberBase));
      r == if n.None? then Err(ValueError) else Ok(n.value)
  {
    if numberBase != 10 && numberBase != 16 {
      return Err(TypeError);
    }
    var keyspace := Keyspace(numberBase);
    var result, i: nat := 0, |numberString|;
    while i > 0
      invariant i <= |numberString|
      invariant FirstIsLowest(numberString[i..], keyspace) == Some(result)
    {
      i := i - 1;
      var value := Place(numberString[i], keyspace);
      var tail := numberString[i..];
      assert tail[1..] == numberString[i + 1..];
      if value.None? {
        BadCharacter(numberString, i, keyspace);
        return Err(ValueError);
      }
      result := result * |keyspace| + value.value;
    }
    assert numberString[0..] == numberString;
    r := Ok(result);
  }

  lemma {:induction false} BadCharacter(s: string, i: nat, keyspace: string)
    requires i < |s| && Place(s[i], keyspace).None?
    ensures FirstIsLowest(s, keyspace).None?
  {
    if i > 0 {
      BadCharacter(s[1..], i - 1, keyspace);
    }
  }

  function Reversed(s: string): string {
    if s == "" then "" else Reversed(s[1..]) + [s[0]]
  }

  lemma {:induction false} DecimalPlace(c: char)
    requires Decimal.IsDigit(c)
    ensures Place(c, Keyspace(10)) == Some(Decimal.DigitValue(c))
  {
    var k := "0123456789";
    PlaceIs(c, k, Decimal.DigitValue(c));
  }

  lemma {:induction false} PlaceIs(c: char, keyspace: string, i: nat)
    requires i < |keyspace| && keyspace[i] == c && forall j :: 0 <= j < i ==> keyspace[j] != c
    ensures Place(c, keyspace) == Some(i)
  {
    if i > 0 {
      PlaceIs(c, keyspace[1..], i - 1);
    }
  }

  /** The number read is that of the reversed text. */
  lemma {:induction false} ReadsReversed(s: string)
    requires Decimal.AllDigits(s)
    ensures Decimal.AllDigits(Reversed(s)) && |Reversed(s)| == |s|
    ensures FirstIsLowest(s, Keyspace(10)) == Some(Decimal.NatValue(Reversed(s)))
  {
    if s != "" {
      ReadsReversed(s[1..]);
      DecimalPlace(s[0]);
      hide Decimal.NatValue, Place, Decimal.AllDigits, Keyspace;
      assert Decimal.AllDigits(s[1..]);
      OneDigitMore(Reversed(s[1..]), s[0]);
      assert |Keyspace(10)| == 10;
    }
  }

  lemma OneDigitMore(r: string, c: char)
    requires Decimal.AllDigits(r) && Decimal.IsDigit(c)
    ensures Decimal.AllDigits(r + [c])
    ensures Decimal.NatValue(r + [c]) == Decimal.NatValue(r) * 10 + Decimal.DigitValue(c)
  {
    assert (r + [c])[..|r|] == r;
  }

  lemma {:induction false} SameDigits(s: string, t: string)
    requires |s| == |t| && Decimal.AllDigits(s) && Decimal.AllDigits(t) && Decimal.NatValue(s) == Decimal.NatValue(t)
    ensures s == t
  {
    if s != "" {
      var n := |s| - 1;
      assert Decimal.DigitValue(s[n]) < 10 && Decimal.DigitValue(t[n]) < 10;
      assert Decimal.DigitValue(s[n]) == Decimal.NatValue(s) % 10 == Decimal.DigitValue(t[n]);
      SameDigits(s[..n], t[..n]);
      assert s == s[..n] + [s[n]] && t == t[..n] + [t[n]];
    }
  }

  /** A decimal number is parsed to what it says exactly when it reads the same backwards. */
  lemma ParsedAsWrittenIff(s: string)
    requires Decimal.AllDigits(s)
    ensures FirstIsLowest(s, Keyspace(10)) == Some(Decimal.NatValue(s)) <==> Reversed(s) == s
  {
    ReadsReversed(s);
    if Decimal.NatValue(Reversed(s)) == Decimal.NatValue(s) {
      SameDigits(Reversed(s), s);
    }
  }

  // ---- what JavaScript objects do to a list of fields ----

  /** The distinct fields, in the order of their first occurrence: the key order of an
      object filled field by field (fields that look like array indices aside). */
  function Uniq(fields: seq<string>): seq<string>
    decreases |fields|
  {
    if fields == [] then []
    else
      var rest := Uniq(fields[..|fields| - 1]);
      var f := fields[|fields| - 1];
      if f in rest then rest else rest + [f]
  }

  /** `dictZip(zip(fields, Object.values(results)))`: the k-th field is paired with the
      k-th DISTINCT field's value, and later pairs overwrite earlier ones. */
  function ZipBack<V>(fields: seq<string>, values: seq<Option<V>>): map<string, Option<V>> {
    if fields == [] then map[]
    else
      var k := |fields| - 1;
      ZipBack(fields[..k], values)[fields[k] := if k < |values| then values[k] else None]
  }

  predicate NoDuplicates(fields: seq<string>) {
    forall i, j :: 0 <= i < j < |fields| ==> fields[i] != fields[j]
  }

  function Lookup<V>(h: map<string, V>, field: string): Option<V> {
    if field in h then Some(h[field]) else None
  }

  function Lookups<V>(h: map<string, V>, fields: seq<string>): seq<Option<V>> {
    seq(|fields|, i requires 0 <= i < |fields| => Lookup(h, fields[i]))
  }

  function Fetched<V>(h: map<string, V>, fields: seq<string>): map<string, Option<V>> {
    ZipBack(fields, Lookups(h, Uniq(fields)))
  }

  lemma {:induction false} UniqProperties(fields: seq<string>)
    ensures |Uniq(fields)| <= |fields|
    ensures forall f :: f in Uniq(fields) <==> f in fields
    ensures Uniq(fields) == fields <==> |Uniq(fields)| == |fields|
    ensures NoDuplicates(fields) <==> |Uniq(fields)| == |fields|
  {
    if fields != [] {
      var rest, f := fields[..|fields| - 1], fields[|fields| - 1];
      UniqProperties(rest);
      assert fields == rest + [f];
      assert Uniq(fields) == if f in Uniq(rest) then Uniq(rest) else Uniq(rest) + [f];
      NoDuplicatesSnoc(rest, f);
      hide Uniq, NoDuplicates;
      if f !in rest && |Uniq(rest)| == |rest| {
        assert Uniq(fields) == fields;
      }
    }
  }

  lemma NoDuplicatesSnoc(rest: seq<string>, f: string)
    ensures NoDuplicates(rest + [f]) <==> NoDuplicates(rest) && f !in rest
  {
    var fields := rest + [f];
    assert fields[|rest|] == f && forall i :: 0 <= i < |rest| ==> fields[i] == rest[i];
    if NoDuplicates(fields) {
      forall i, j | 0 <= i < j < |rest| ensures rest[i] != rest[j] {
        assert fields[i] != fields[j];
      }
    }
  }

  lemma {:induction false} ZipBackDistinct<V>(h: map<string, V>, fields: seq<string>, values: seq<Option<V>>)
    requires NoDuplicates(fields) && |fields| <= |values|
    requires forall i :: 0 <= i < |fields| ==> values[i] == Lookup(h, fields[i])
    ensures forall f :: f in ZipBack(fields, values) <==> f in fields
    ensures forall f :: f in fields ==> ZipBack(fields, values)[f] == Lookup(h, f)
  {
    if fields != [] {
      var rest, f := fields[..|fields| - 1], fields[|fields| - 1];
      assert fields == rest + [f];
      ZipBackDistinct(h, rest, values);
    }
  }

  /** Where every requested body is stored, a request returns every body under its own
      field exactly when no field is requested twice: a repeated field shifts the bodies. */
  lemma FetchedCorrectIff<V>(h: map<string, V>, fields: seq<string>)
    requires forall f :: f in fields ==> f in h
    ensures (forall f :: f in fields ==> f in Fetched(h, fields) && Fetched(h, fields)[f] == Some(h[f]))
       <==> NoDuplicates(fields)
  {
    UniqProperties(fields);
    var values := Lookups(h, Uniq(fields));
    if NoDuplicates(fields) {
      ZipBackDistinct(h, fields, values);
    } else {
      var f := fields[|fields| - 1];
      assert f in fields && Fetched(h, fields)[f] == None;
    }
  }

  /** Without repetitions a missing body is reported as missing and harms no other. */
  lemma FetchedDistinct<V>(h: map<string, V>, fields: seq<string>)
    requires NoDuplicates(fields)
    ensures forall f :: f in Fetched(h, fields) <==> f in fields
    ensures forall f :: f in fields ==> Fetched(h, fields)[f] == Lookup(h, f)
  {
    UniqProperties(fields);
    ZipBackDistinct(h, fields, Lookups(h, Uniq(fields)));
  }

  /** With a repetition the last field is reported missing, stored or not. */
  lemma FetchedRepeated<V>(h: map<string, V>, fields: seq<string>)
    requires !NoDuplicates(fields)
    ensures exists f :: f in Fetched(h, fields) && Fetched(h, fields)[f] == None
  {
    UniqProperties(fields);
    assert Fetched(h, fields)[fields[|fields| - 1]] == None;
  }

  // ---- many hashes as one ----

  /** What fixes the shard of a field. */
  datatype Layout = Layout(key: string, numberOfKeys: nat, digest: string -> string) {
    ghost predicate Proper() {
      numberOfKeys > 0 && forall f :: FirstIsLowest(digest(f), Keyspace(16)).Some?
    }

    /** A digest is hexadecimal (`Proper`), so the loop never throws on one. */
    function Position(field: string): nat {
      var n := FirstIsLowest(digest(field), Keyspace(16));
      if n.None? || numberOfKeys == 0 then 0 else n.value % numberOfKeys
    }

    lemma Halves(a: nat, b: nat)
      ensures (a * 2 + b) % 2 == b % 2
    {
    }

    lemma Quarters(a: nat, b: nat)
      ensures (a * 4 + b) % 4 == b % 4
    {
    }

    lemma Eighths(a: nat, b: nat)
      ensures (a * 8 + b) % 8 == b % 8
    {
    }

    lemma Sixteenths(a: nat, b: nat)
      ensures (a * 16 + b) % 16 == b % 16
    {
    }

    lemma SixteensVanish(high: nat, low: nat, n: nat)
      requires n in {2, 4, 8, 16}
      ensures (high * 16 + low) % n == low % n
    {
      Halves(high * 8, low);
      Quarters(high * 4, low);
      Eighths(high * 2, low);
      Sixteenths(high, low);
    }

    /** The first character of a hexadecimal digest alone decides among 2, 4, 8 or 16 shards. */
    lemma FirstCharacterDecides(field: string)
      requires Proper() && numberOfKeys in {2, 4, 8, 16} && digest(field) != ""
      ensures Place(digest(field)[0], Keyspace(16)).Some?
      ensures Position(field) == Place(digest(field)[0], Keyspace(16)).value % numberOfKeys
    {
      var d := digest(field);
      assert FirstIsLowest(d, Keyspace(16)).Some?;
      var low, high := Place(d[0], Keyspace(16)).value, FirstIsLowest(d[1..], Keyspace(16)).value;
      assert FirstIsLowest(d, Keyspace(16)).value == high * 16 + low;
      hide FirstIsLowest, Place, Proper;
      SixteensVanish(high, low, numberOfKeys);
    }

    function ShardKey(i: nat): string { key + ":" + Decimal.Digits(i) }

    function Shard(redis: map<string, Hash>, i: nat): Hash {
      if ShardKey(i) in redis then redis[ShardKey(i)] else map[]
    }

    /** Each field lives only in its own shard. */
    ghost predicate Sharded(redis: map<string, Hash>) {
      forall i: nat, f :: i < numberOfKeys && f in Shard(redis, i) ==> Position(f) == i
    }

    ghost function UpTo(redis: map<string, Hash>, n: nat): Hash {
      if n == 0 then map[] else UpTo(redis, n - 1) + Shard(redis, n - 1)
    }

    /** The single hash the shards stand for. */
    ghost function Merged(redis: map<string, Hash>): Hash { UpTo(redis, numberOfKeys) }

    lemma {:induction false} UpToHolds(redis: map<string, Hash>, n: nat, f: string)
      requires Sharded(redis) && n <= numberOfKeys
      ensures f in UpTo(redis, n) <==> Position(f) < n && f in Shard(redis, Position(f))
      ensures f in UpTo(redis, n) ==> UpTo(redis, n)[f] == Shard(redis, Position(f))[f]
    {
      if n > 0 {
        UpToHolds(redis, n - 1, f);
      }
    }

    lemma MergedHolds(redis: map<string, Hash>, f: string)
      requires Proper() && Sharded(redis)
      ensures Lookup(Merged(redis), f) == Lookup(Shard(redis, Position(f)), f)
    {
      UpToHolds(redis, numberOfKeys, f);
    }

    lemma ShardKeysDiffer(i: nat, j: nat)
      ensures ShardKey(i) == ShardKey(j) <==> i == j
    {
      if ShardKey(i) == ShardKey(j) {
        var n := |key| + 1;
        assert ShardKey(i)[n..] == Decimal.Digits(i) && ShardKey(j)[n..] == Decimal.Digits(j);
        Decimal.DigitsAreInjective(i, j);
      }
    }

    /** HSET or HDEL of one field in its shard is the same write to the single hash. */
    lemma PutField(redis: map<string, Hash>, field: string, value: Option<string>)
      requires Proper() && Sharded(redis)
      ensures var redis' := redis[ShardKey(Position(field)) := Put(Shard(redis, Position(field)), field, value)];
              Sharded(redis') && Merged(redis') == Put(Merged(redis), field, value)
    {
      var p := Position(field);
      var redis' := redis[ShardKey(p) := Put(Shard(redis, p), field, value)];
      forall i: nat ensures Shard(redis', i) == if i == p then Put(Shard(redis, p), field, value) else Shard(redis, i) {
        ShardKeysDiffer(i, p);
      }
      forall f ensures Lookup(Merged(redis'), f) == Lookup(Put(Merged(redis), field, value), f) {
        MergedHolds(redis, f);
        MergedHolds(redis', f);
      }
      SameLookups(Merged(redis'), Put(Merged(redis), field, value));
    }

    /** The sizes of the shards add up. */
    lemma SizeUpTo(redis: map<string, Hash>, n: nat)
      requires Sharded(redis) && n < numberOfKeys
      ensures |UpTo(redis, n + 1)| == |UpTo(redis, n)| + |Shard(redis, n)|
    {
      var a, b := UpTo(redis, n), Shard(redis, n);
      forall f | f in a ensures f !in b {
        UpToHolds(redis, n, f);
      }
      assert a.Keys !! b.Keys && (a + b).Keys == a.Keys + b.Keys;
      assert |(a + b).Keys| == |a + b| && |a.Keys| == |a| && |b.Keys| == |b|;
    }
  }

  /** There are proper layouts, with any number of shards. */
  lemma LayoutsExist(key: string, n: nat, digest: string -> string)
    requires n > 0 && forall f :: FirstIsLowest(digest(f), Keyspace(16)).Some?
    ensures Layout(key, n, digest).Proper()
    ensures Layout(key, n, f => "0").Proper()
  {
    assert FirstIsLowest("", Keyspace(16)) == Some(0);
    assert FirstIsLowest("0", Keyspace(16)).Some?;
  }

  function Put(h: Hash, field: string, value: Option<string>): Hash {
    if value.Some? then h[field := value.value] else h - {field}
  }

  lemma SameLookups(a: Hash, b: Hash)
    requires forall f :: Lookup(a, f) == Lookup(b, f)
    ensures a == b
  {
    assert forall f :: f in a <==> Lookup(a, f).Some?;
    assert forall f :: f in b <==> Lookup(b, f).Some?;
    assert forall f :: f in a ==> Lookup(a, f) == Some(a[f]) && Lookup(b, f) == Some(a[f]);
  }

  class ShardedHashCache {
    var redis: map<string, Hash>
    const layout: Layout

    constructor (layout: Layout)
      requires layout.Proper()
      ensures Valid() && Contents() == map[] && this.layout == layout
    {
      this.redis := map[];
      this.layout := layout;
      new;
      forall f ensures Lookup(Contents(), f) == None {
        layout.MergedHolds(map[], f);
      }
      SameLookups(Contents(), map[]);
    }

    ghost predicate Valid()
      reads this
    {
      layout.Proper() && layout.Sharded(redis)
    }

    ghost function Contents(): Hash
      reads this
    {
      layout.Merged(redis)
    }

    /** HSET of one field; the answer is 1 for a field that was not there. */
    method SetOne(field: string, value: string) returns (created: nat)
      requires Valid()
      modifies this
      ensures Valid() && Contents() == old(Contents())[field := value]
      ensures created == if field in old(Contents()) then 0 else 1
    {
      hide Layout.Merged, Layout.Sharded;
      var p := layout.Position(field);
      var shard := layout.Shard(redis, p);
      layout.MergedHolds(redis, field);
      layout.PutField(redis, field, Some(value));
      created := if field in shard then 0 else 1;
      redis := redis[layout.ShardKey(p) := shard[field := value]];
    }

    method SetMany(pairs: seq<(string, string)>) returns (results: seq<nat>)
      requires Valid()
      modifies this
      ensures Valid() && Contents() == Written(old(Contents()), pairs)
      ensures results == Created(old(Contents()), pairs)
    {
      hide Valid, Contents;
      results := [];
      for i := 0 to |pairs|
        invariant Valid() && Written(Contents(), pairs[i..]) == Written(old(Contents()), pairs)
        invariant results + Created(Contents(), pairs[i..]) == Created(old(Contents()), pairs)
      {
        ghost var left := pairs[i..];
        assert left[0] == pairs[i] && left[1..] == pairs[i + 1..];
        ghost var before, done := Contents(), results;
        var created := SetOne(pairs[i].0, pairs[i].1);
        results := results + [created];
        assert done + Created(before, left) == results + Created(Contents(), left[1..]);
      }
      assert pairs[|pairs|..] == [];
    }

    method GetMany(fields: seq<string>) returns (results: map<string, Option<string>>)
      requires Valid()
      ensures results == Fetched(Contents(), fields)
    {
      var names, values: seq<Option<string>> := [], [];
      for i := 0 to |fields|
        invariant names == Uniq(fields[..i]) && values == Lookups(Contents(), names)
      {
        assert fields[..i + 1][..i] == fields[..i] && fields[..i + 1][i] == fields[i];
        var h := layout.Shard(redis, layout.Position(fields[i]));
        layout.MergedHolds(redis, fields[i]);
        if fields[i] !in names {
          names := names + [fields[i]];
          values := values + [Lookup(h, fields[i])];
        }
      }
      assert fields[..|fields|] == fields;
      results := ZipBack(fields, values);
    }

    /** HDEL of one field. */
    method DeleteOne(field: string) returns (deleted: nat)
      requires Valid()
      modifies this
      ensures Valid() && Contents() == old(Contents()) - {field}
      ensures deleted == if field in old(Contents()) then 1 else 0
    {
      hide Layout.Merged, Layout.Sharded;
      var p := layout.Position(field);
      var shard := layout.Shard(redis, p);
      layout.MergedHolds(redis, field);
      layout.PutField(redis, field, None);
      deleted := if field in shard then 1 else 0;
      redis := redis[layout.ShardKey(p) := shard - {field}];
    }

    method DeleteMany(fields: seq<string>)
      requires Valid()
      modifies this
      ensures Valid() && Contents() == map f | f in old(Contents()) && f !in fields :: old(Contents())[f]
    {
      hide Valid, Contents;
      for i := 0 to |fields|
        invariant Valid()
        invariant Contents() == map f | f in old(Contents()) && f !in fields[..i] :: old(Contents())[f]
      {
        var deleted := DeleteOne(fields[i]);
        assert fields[..i + 1] == fields[..i] + [fields[i]];
      }
      assert fields[..|fields|] == fields;
    }

    method Count() returns (total: nat)
      requires Valid()
      ensures total == |Contents()|
    {
      total := 0;
      for i := 0 to layout.numberOfKeys
        invariant total == |layout.UpTo(redis, i)|
      {
        layout.SizeUpTo(redis, i);
        total := total + |layout.Shard(redis, i)|;
      }
    }

    /** DEL of every shard a field can be put in. */
    method Delete()
      requires Valid()
      modifies this
      ensures Valid() && Contents() == map[]
    {
      for i := 0 to layout.numberOfKeys
        invariant forall j: nat :: j < i ==> layout.ShardKey(j) !in redis
      {
        redis := redis - {layout.ShardKey(i)};
      }
      assert forall i: nat :: i < layout.numberOfKeys ==> layout.Shard(redis, i) == map[];
      forall f ensures Lookup(Contents(), f) == None {
        layout.MergedHolds(redis, f);
      }
      SameLookups(Contents(), map[]);
    }
  }

  /** What HSET answers pair by pair: 1 for a field that was not there. */
  function Created(h: Hash, pairs: seq<(string, string)>): seq<nat>
    decreases |pairs|
  {
    if pairs == [] then []
    else [if pairs[0].0 in h then 0 else 1] + Created(h[pairs[0].0 := pairs[0].1], pairs[1..])
  }

  predicate Names(pairs: seq<(string, string)>, n: nat, f: string) {
    exists i :: 0 <= i < n && i < |pairs| && pairs[i].0 == f
  }

  /** Each answer is 1 exactly for a field neither there nor written before in the list. */
  lemma {:induction false} CreatedIff(h: Hash, pairs: seq<(string, string)>, k: nat)
    requires k < |pairs|
    ensures |Created(h, pairs)| == |pairs|
    ensures Created(h, pairs)[k] == if pairs[k].0 in h || Names(pairs, k, pairs[k].0) then 0 else 1
    decreases |pairs|
  {
    var h', rest := h[pairs[0].0 := pairs[0].1], pairs[1..];
    if k > 0 {
      CreatedIff(h', rest, k - 1);
      assert Names(pairs, k, pairs[k].0) <==> pairs[0].0 == pairs[k].0 || Names(rest, k - 1, pairs[k].0) by {
        assert forall i :: 0 <= i < |rest| ==> rest[i] == pairs[i + 1];
        if Names(rest, k - 1, pairs[k].0) {
          var i :| 0 <= i < k - 1 && rest[i].0 == pairs[k].0;
          assert pairs[i + 1].0 == pairs[k].0;
        }
      }
    } else if rest != [] {
      CreatedIff(h', rest, 0);
    }
  }

  /** Of the pairs for one field the last counts. */
  lemma {:induction false} LastPairCounts(h: Hash, pairs: seq<(string, string)>, k: nat)
    requires k < |pairs| && forall j :: k < j < |pairs| ==> pairs[j].0 != pairs[k].0
    ensures pairs[k].0 in Written(h, pairs) && Written(h, pairs)[pairs[k].0] == pairs[k].1
    decreases |pairs|
  {
    var h', rest := h[pairs[0].0 := pairs[0].1], pairs[1..];
    if k > 0 {
      LastPairCounts(h', rest, k - 1);
    } else {
      OthersUntouched(h', rest, pairs[0].0);
    }
  }

  /** Fields without a pair stay as they were. */
  lemma {:induction false} OthersUntouched(h: Hash, pairs: seq<(string, string)>, f: string)
    requires forall j :: 0 <= j < |pairs| ==> pairs[j].0 != f
    ensures Lookup(Written(h, pairs), f) == Lookup(h, f)
    decreases |pairs|
  {
    if pairs != [] {
      OthersUntouched(h[pairs[0].0 := pairs[0].1], pairs[1..], f);
    }
  }

  function Written(h: Hash, pairs: seq<(string, string)>): Hash
    decreases |pairs|
  {
    if pairs == [] then h else Written(h[pairs[0].0 := pairs[0].1], pairs[1..])
  }
}
