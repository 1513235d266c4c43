/** The mathematics of a Redis sorted set: a finite map from members to scores,
    read in the order Redis gives it (score first, member second). */
module Ranking {
  import opened Ids

  type ZSet = map<string, real>

  /** `a` is read before `b` in a descending read of `z`. */
  predicate Above(z: ZSet, a: string, b: string) {
    a in z && b in z && (z[a] > z[b] || (z[a] == z[b] && Less(b, a)))
  }

  /** `s` is the descending read of the whole of `z`. */
  ghost predicate IsListing(z: ZSet, s: seq<string>) {
    (forall m :: m in z <==> m in s) &&
    forall i, j :: 0 <= i < j < |s| ==> Above(z, s[i], s[j])
  }

  lemma AboveIsTransitive(z: ZSet, a: string, b: string, c: string)
    requires Above(z, a, b) && Above(z, b, c)
    ensures Above(z, a, c)
  {
    if z[a] == z[b] == z[c] {
      LessIsTransitive(c, b, a);
    }
  }

  lemma AboveIsTotal(z: ZSet, a: string, b: string)
    requires a in z && b in z
    ensures a == b || Above(z, a, b) || Above(z, b, a)
  {
    LessIsTotal(a, b);
  }

  lemma AboveIsAsymmetric(z: ZSet, a: string, b: string)
    requires Above(z, a, b)
    ensures !Above(z, b, a) && a != b
  {
    LessIsIrreflexive(a);
    if Above(z, b, a) {
      LessIsTransitive(a, b, a);
    }
  }

  ghost function Top(z: ZSet): (top: string)
    requires z != map[]
    ensures top in z
    ensures forall m :: m in z && m != top ==> Above(z, top, m)
    decreases |z|
  {
    var k :| k in z;
    var rest := z - {k};
    if rest == map[] then
      assert forall m :: m in z && m != k ==> m in rest;
      k
    else
      var t := Top(rest);
      AboveIsTotal(z, k, t);
      if Above(z, k, t) then
        assert forall m :: m in z && m != k ==> Above(z, k, m) by {
          forall m | m in z && m != k ensures Above(z, k, m) {
            assert m in rest;
            if m != t {
              assert Above(rest, t, m);
              AboveIsTransitive(z, k, t, m);
            }
          }
        }
        k
      else
        assert forall m :: m in z && m != t ==> Above(z, t, m) by {
          forall m | m in z && m != t ensures Above(z, t, m) {
            if m != k {
              assert m in rest && Above(rest, t, m);
            }
          }
        }
        t
  }

  lemma ListingCons(z: ZSet, t: string, s: seq<string>)
    requires t in z && forall m :: m in z && m != t ==> Above(z, t, m)
    requires IsListing(z - {t}, s)
    ensures IsListing(z, [t] + s)
  {
    var rest, l := z - {t}, [t] + s;
    forall m ensures m in z <==> m in l {
      assert m in s <==> m in rest;
    }
    forall i, j | 0 <= i < j < |l| ensures Above(z, l[i], l[j]) {
      assert l[j] == s[j - 1] && s[j - 1] in s && s[j - 1] in rest;
      if i > 0 {
        assert Above(rest, s[i - 1], s[j - 1]);
      }
    }
  }

  lemma ListingExists(z: ZSet) returns (s: seq<string>)
    ensures IsListing(z, s)
    decreases |z|
  {
    s := [];
    if z != map[] {
      var t := Top(z);
      var rest := z - {t};
      assert rest.Keys == z.Keys - {t} && |z.Keys| == |z| && |rest.Keys| == |rest|;
      s := ListingExists(rest);
      ListingCons(z, t, s);
      s := [t] + s;
    }
  }

  /** All members of `z`, best first: what a full descending read returns. */
  ghost function Listing(z: ZSet): seq<string> {
    assert exists s :: IsListing(z, s) by {
      var s := ListingExists(z);
    }
    var s :| IsListing(z, s);
    s
  }

  /** The members read before `m`. */
  ghost function Better(z: ZSet, m: string): set<string> {
    set x | x in z && Above(z, x, m)
  }

  ghost function Min(a: int, b: int): int { if a < b then a else b }

  lemma {:induction false} ElementCount(s: seq<string>)
    requires forall i, j :: 0 <= i < j < |s| ==> s[i] != s[j]
    ensures |set x | x in s| == |s|
  {
    if s != [] {
      var n := |s| - 1;
      ElementCount(s[..n]);
      assert s == s[..n] + [s[n]];
      assert (set x | x in s) == (set x | x in s[..n]) + {s[n]};
    }
  }

  /** The position of a member in a listing is the number of members that beat it. */
  lemma RankIsIndex(z: ZSet, s: seq<string>, i: nat)
    requires IsListing(z, s) && i < |s|
    ensures Better(z, s[i]) == set x | x in s[..i]
    ensures |Better(z, s[i])| == i
  {
    forall x ensures x in Better(z, s[i]) <==> x in s[..i] {
      if x in Better(z, s[i]) {
        assert x in s;
        var k :| 0 <= k < |s| && s[k] == x;
        if k >= i {
          AboveIsAsymmetric(z, x, s[i]);
          assert false;
        }
        assert s[..i][k] == x;
      }
    }
    forall a, b | 0 <= a < b < i ensures s[..i][a] != s[..i][b] {
      AboveIsAsymmetric(z, s[a], s[b]);
    }
    ElementCount(s[..i]);
  }

  lemma ListingLength(z: ZSet, s: seq<string>)
    requires IsListing(z, s)
    ensures |s| == |z|
  {
    forall a, b | 0 <= a < b < |s| ensures s[a] != s[b] {
      AboveIsAsymmetric(z, s[a], s[b]);
    }
    ElementCount(s);
    assert z.Keys == set x | x in s;
  }

  /** Every place of a listing, and the place of every member. */
  lemma AtPlace(z: ZSet, i: nat)
    requires i < |Listing(z)|
    ensures Listing(z)[i] in z
    ensures |Better(z, Listing(z)[i])| == i
    ensures Better(z, Listing(z)[i]) == set x | x in Listing(z)[..i]
  {
    assert Listing(z)[i] in Listing(z);
    RankIsIndex(z, Listing(z), i);
  }

  lemma PlaceOf(z: ZSet, m: string) returns (i: nat)
    requires m in z
    ensures i < |Listing(z)| && Listing(z)[i] == m && |Better(z, m)| == i
  {
    assert m in Listing(z);
    i :| 0 <= i < |Listing(z)| && Listing(z)[i] == m;
    AtPlace(z, i);
  }

  lemma ListingSize(z: ZSet)
    ensures |Listing(z)| == |z|
  {
    ListingLength(z, Listing(z));
  }

  /** A sorted set has exactly one descending listing. */
  lemma ListingIsUnique(z: ZSet, s: seq<string>)
    requires IsListing(z, s)
    ensures s == Listing(z)
  {
    ListingLength(z, s);
    ListingSize(z);
    forall i | 0 <= i < |s| ensures s[i] == Listing(z)[i] {
      RankIsIndex(z, s, i);
      assert s[i] in s;
      var k := PlaceOf(z, s[i]);
    }
  }

  /** `m` is among the best `n` members. */
  ghost predicate InTop(z: ZSet, n: int, m: string) {
    m in z && |Better(z, m)| < n
  }

  lemma InTopIsPrefix(z: ZSet, n: nat, m: string)
    ensures |Listing(z)| == |z|
    ensures InTop(z, n, m) <==> m in Listing(z)[..Min(n, |z|)]
  {
    ListingSize(z);
    var p := Listing(z)[..Min(n, |z|)];
    if m in p {
      var j :| 0 <= j < |p| && p[j] == m;
      AtPlace(z, j);
    }
    if m in z {
      var k := PlaceOf(z, m);
      assert k < n ==> p[k] == m;
    }
  }

  /** The best `n` entries, with their scores. */
  ghost function Keep(z: ZSet, n: int): ZSet {
    map m | m in z && InTop(z, n, m) :: z[m]
  }

  /** `t` is a part of `f`. */
  ghost predicate PartOf(t: ZSet, f: ZSet) {
    forall m :: m in t ==> m in f && t[m] == f[m]
  }

  /** The part `t` of `f` still holds the best `n` members of `f`. */
  ghost predicate HoldsTop(t: ZSet, f: ZSet, n: int) {
    PartOf(t, f) && forall m :: InTop(f, n, m) ==> m in t
  }

  lemma PartHasFewerBetter(t: ZSet, f: ZSet, m: string)
    requires PartOf(t, f) && m in t
    ensures Better(t, m) <= Better(f, m) && |Better(t, m)| <= |Better(f, m)|
  {
    assert forall x :: x in Better(t, m) ==> x in Better(f, m);
    SubsetSize(Better(t, m), Better(f, m));
  }

  lemma {:induction false} SubsetSize<T>(a: set<T>, b: set<T>)
    requires a <= b
    ensures |a| <= |b|
    decreases a
  {
    if a != {} {
      var x :| x in a;
      SubsetSize(a - {x}, b - {x});
    }
  }

  /** A part that holds the best `n` members reads the same down to place `n`. */
  lemma SameReadings(t: ZSet, f: ZSet, n: nat, k: nat)
    requires HoldsTop(t, f, n) && k <= n
    ensures Min(k, |t|) == Min(k, |f|)
    ensures |Listing(t)| == |t| && |Listing(f)| == |f|
    ensures Listing(t)[..Min(k, |t|)] == Listing(f)[..Min(k, |f|)]
  {
    ListingSize(t);
    ListingSize(f);
    SubsetSize(t.Keys, f.Keys);
    assert |t.Keys| == |t| && |f.Keys| == |f|;
    SamePlaces(t, f, n, Min(k, |f|));
  }

  lemma SamePlaces(t: ZSet, f: ZSet, n: nat, k: nat)
    requires HoldsTop(t, f, n) && k <= n && k <= |Listing(f)|
    ensures k <= |Listing(t)| && Listing(t)[..k] == Listing(f)[..k]
  {
    hide Listing, HoldsTop;
    if k > 0 {
      SamePlaces(t, f, n, k - 1);
      SamePlace(t, f, n, k - 1);
      LongerPrefix(Listing(t), Listing(f), k - 1);
    }
  }

  lemma LongerPrefix(a: seq<string>, b: seq<string>, k: nat)
    requires k < |a| && k < |b| && a[..k] == b[..k] && a[k] == b[k]
    ensures a[..k + 1] == b[..k + 1]
  {
    assert a[..k + 1] == a[..k] + [a[k]] && b[..k + 1] == b[..k] + [b[k]];
  }

  lemma SamePlace(t: ZSet, f: ZSet, n: nat, i: nat)
    requires HoldsTop(t, f, n) && i < n && i < |Listing(f)|
    ensures i < |Listing(t)| && Listing(t)[i] == Listing(f)[i]
  {
    var m := Listing(f)[i];
    AtPlace(f, i);
    assert InTop(f, n, m);
    forall x | x in Better(f, m) ensures x in Better(t, m) {
      var j :| 0 <= j < i && Listing(f)[j] == x;
      AtPlace(f, j);
      assert InTop(f, n, x);
    }
    PartHasFewerBetter(t, f, m);
    assert Better(t, m) == Better(f, m);
    var j := PlaceOf(t, m);
  }

  /** Keeping the best `n` cuts the listing after place `n`. */
  lemma ListingOfKeep(z: ZSet, n: nat)
    ensures |Listing(z)| == |z| && |Keep(z, n)| == Min(n, |z|)
    ensures Listing(Keep(z, n)) == Listing(z)[..Min(n, |z|)]
  {
    ListingSize(z);
    var k, p := Keep(z, n), Listing(z)[..Min(n, |z|)];
    assert IsListing(k, p) by {
      forall m ensures m in k <==> m in p {
        InTopIsPrefix(z, n, m);
      }
      forall i, j | 0 <= i < j < |p| ensures Above(k, p[i], p[j]) {
        assert p[i] in p && p[j] in p;
        assert Above(z, Listing(z)[i], Listing(z)[j]);
      }
    }
    ListingIsUnique(k, p);
    ListingLength(k, p);
  }

  function Inserted(s: seq<string>, i: nat, m: string): seq<string>
    requires i <= |s|
  {
    s[..i] + [m] + s[i..]
  }

  lemma InsertedMembers(s: seq<string>, i: nat, m: string, x: string)
    requires i <= |s|
    ensures x in Inserted(s, i, m) <==> x in s || x == m
  {
    assert s == s[..i] + s[i..];
  }

  /** Inserting a new member at its split point gives the listing of the larger set. */
  lemma InsertKeepsListing(z: ZSet, s: seq<string>, m: string, score: real, i: nat)
    requires IsListing(z, s) && m !in z && i <= |s|
    requires forall j :: 0 <= j < i ==> Above(z[m := score], s[j], m)
    requires forall j :: i <= j < |s| ==> Above(z[m := score], m, s[j])
    ensures Inserted(s, i, m) == Listing(z[m := score])
  {
    var z', l := z[m := score], Inserted(s, i, m);
    forall x ensures x in z' <==> x in l {
      InsertedMembers(s, i, m, x);
    }
    forall a, b | 0 <= a < b < |l| ensures Above(z', l[a], l[b]) {
      InsertedInOrder(z, s, m, score, i, a, b);
    }
    ListingIsUnique(z', l);
  }

  lemma InsertedInOrder(z: ZSet, s: seq<string>, m: string, score: real, i: nat, a: nat, b: nat)
    requires forall j, k :: 0 <= j < k < |s| ==> Above(z, s[j], s[k])
    requires m !in z && i <= |s| && a < b <= |s|
    requires forall j :: 0 <= j < i ==> Above(z[m := score], s[j], m)
    requires forall j :: i <= j < |s| ==> Above(z[m := score], m, s[j])
    ensures Above(z[m := score], Inserted(s, i, m)[a], Inserted(s, i, m)[b])
  {
    var a', b' := if a > i then a - 1 else a, if b > i then b - 1 else b;
    if a != i && b != i {
      assert Above(z, s[a'], s[b']);
    }
  }
}
