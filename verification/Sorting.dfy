/** `Array.prototype.sort` with the comparator `(a, b) => after(a, b) ? 1 : -1`. */
module Sorting {

  /** The comparator describes a consistent order. */
  ghost predicate Consistent<T(!new)>(after: (T, T) -> bool) {
    (forall a, b :: after(a, b) ==> !after(b, a)) &&
    (forall a, b, c :: !after(a, b) && !after(b, c) ==> !after(a, c))
  }

  ghost predicate InOrder<T>(s: seq<T>, after: (T, T) -> bool) {
    forall i, j :: 0 <= i < j < |s| ==> !after(s[i], s[j])
  }

  function PlaceFor<T>(s: seq<T>, x: T, after: (T, T) -> bool): (i: nat)
    ensures i <= |s|
    ensures forall j :: 0 <= j < i ==> !after(s[j], x)
    ensures i < |s| ==> after(s[i], x)
  {
    if s == [] || after(s[0], x) then 0
    else
      var i := PlaceFor(s[1..], x, after);
      assert forall j :: 0 < j <= i ==> s[j] == s[1..][j - 1];
      i + 1
  }

  function SortBy<T>(s: seq<T>, after: (T, T) -> bool): seq<T> {
    if s == [] then []
    else
      var rest, x := SortBy(s[..|s| - 1], after), s[|s| - 1];
      var i := PlaceFor(rest, x, after);
      rest[..i] + [x] + rest[i..]
  }

  lemma PutIn<T>(r: seq<T>, i: nat, x: T)
    requires i <= |r|
    ensures multiset(r[..i] + [x] + r[i..]) == multiset(r) + multiset{x}
  {
    assert r == r[..i] + r[i..];
  }

  lemma {:induction false} SortPermutes<T>(s: seq<T>, after: (T, T) -> bool)
    ensures multiset(SortBy(s, after)) == multiset(s)
    ensures |SortBy(s, after)| == |s|
  {
    if s != [] {
      var rest, x := s[..|s| - 1], s[|s| - 1];
      SortPermutes(rest, after);
      var r := SortBy(rest, after);
      var i := PlaceFor(r, x, after);
      hide SortBy, PlaceFor;
      PutIn(r, i, x);
      assert s == rest + [x];
    }
  }

  lemma {:induction false} SortOrders<T(!new)>(s: seq<T>, after: (T, T) -> bool)
    requires Consistent(after)
    ensures InOrder(SortBy(s, after), after)
  {
    if s != [] {
      var x, r := s[|s| - 1], SortBy(s[..|s| - 1], after);
      SortOrders(s[..|s| - 1], after);
      InsertInOrder(r, x, PlaceFor(r, x, after), after);
    }
  }

  lemma InsertInOrder<T(!new)>(r: seq<T>, x: T, i: nat, after: (T, T) -> bool)
    requires Consistent(after) && InOrder(r, after) && i <= |r|
    requires forall j :: 0 <= j < i ==> !after(r[j], x)
    requires i < |r| ==> after(r[i], x)
    ensures InOrder(r[..i] + [x] + r[i..], after)
  {
    var s := r[..i] + [x] + r[i..];
    forall a, b | 0 <= a < b < |s| ensures !after(s[a], s[b]) {
      if a == i {
        assert s[b] == r[b - 1] && !after(x, r[i]) && (i < b - 1 ==> !after(r[i], r[b - 1]));
      } else if b != i {
        assert s[a] == r[if a < i then a else a - 1] && s[b] == r[if b < i then b else b - 1];
      }
    }
  }

  lemma SameHead<T(!new)>(a: seq<T>, b: seq<T>, after: (T, T) -> bool)
    requires a != [] && b != [] && multiset(a) == multiset(b)
    requires InOrder(a, after) && InOrder(b, after)
    ensures (!after(a[0], b[0]) && !after(b[0], a[0])) || a[0] == b[0]
  {
    assert a[0] in multiset(b) && b[0] in multiset(a);
    var i :| 0 <= i < |b| && b[i] == a[0];
    var j :| 0 <= j < |a| && a[j] == b[0];
    assert i > 0 ==> !after(b[0], b[i]);
    assert j > 0 ==> !after(a[0], a[j]);
  }

  lemma SameTails<T>(a: seq<T>, b: seq<T>)
    requires a != [] && b != [] && multiset(a) == multiset(b) && a[0] == b[0]
    ensures multiset(a[1..]) == multiset(b[1..])
  {
    assert a == [a[0]] + a[1..] && b == [b[0]] + b[1..];
    assert multiset(a[1..]) == multiset(a) - multiset{a[0]};
    assert multiset(b[1..]) == multiset(b) - multiset{b[0]};
  }

  /** No two different elements of the list are tied. */
  ghost predicate NoTies<T>(s: seq<T>, after: (T, T) -> bool) {
    forall i, j :: 0 <= i < |s| && 0 <= j < |s| && s[i] != s[j] ==> after(s[i], s[j]) || after(s[j], s[i])
  }

  /** A list without ties has one ordered arrangement, whatever the algorithm. */
  lemma {:induction false} OrderedIsUnique<T(!new)>(a: seq<T>, b: seq<T>, after: (T, T) -> bool)
    requires InOrder(a, after) && InOrder(b, after) && multiset(a) == multiset(b) && NoTies(a, after)
    ensures a == b
  {
    assert |multiset(a)| == |a| && |multiset(b)| == |b|;
    if a != [] {
      SameHead(a, b, after);
      assert b[0] in multiset(a);
      var j :| 0 <= j < |a| && a[j] == b[0];
      SameTails(a, b);
      OrderedIsUnique(a[1..], b[1..], after);
      assert a == [a[0]] + a[1..] && b == [b[0]] + b[1..];
    }
  }

  /** The sort happens in the caller's array. */
  method SortInPlace<T>(a: array<T>, after: (T, T) -> bool)
    modifies a
    ensures a[..] == SortBy(old(a[..]), after)
  {
    var sorted := SortBy(a[..], after);
    SortPermutes(a[..], after);
    for k := 0 to a.Length
      invariant a[..k] == sorted[..k]
    {
      a[k] := sorted[k];
    }
  }
}
