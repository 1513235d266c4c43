/** JavaScript's `split` and `join`. */
module Text {
  import opened Results

  predicate OccursAt(s: string, sep: string, i: int) {
    0 <= i <= |s| - |sep| && s[i..i + |sep|] == sep
  }

  predicate Includes(s: string, sep: string) {
    exists i :: 0 <= i <= |s| && OccursAt(s, sep, i)
  }

  /** The first occurrence. */
  function IndexOf(s: string, sep: string): (r: Option<nat>)
    requires sep != ""
    ensures r.Some? ==> OccursAt(s, sep, r.value) && forall j :: 0 <= j < r.value ==> !OccursAt(s, sep, j)
    ensures r.None? ==> forall j :: !OccursAt(s, sep, j)
  {
    if |s| < |sep| then None
    else if s[..|sep|] == sep then Some(0)
    else
      var rest := IndexOf(s[1..], sep);
      assert forall j :: 0 < j && OccursAt(s, sep, j) ==> OccursAt(s[1..], sep, j - 1) by {
        forall j | 0 < j && OccursAt(s, sep, j) ensures OccursAt(s[1..], sep, j - 1) {
          assert s[1..][j - 1..j - 1 + |sep|] == s[j..j + |sep|];
        }
      }
      if rest.None? then None
      else
        assert s[1..][rest.value..rest.value + |sep|] == s[rest.value + 1..rest.value + 1 + |sep|];
        Some(rest.value + 1)
  }

  function Split(s: string, sep: string): (parts: seq<string>)
    requires sep != ""
    ensures parts != []
    decreases |s|
  {
    var i := IndexOf(s, sep);
    if i.None? then [s] else [s[..i.value]] + Split(s[i.value + |sep|..], sep)
  }

  function Join(parts: seq<string>, sep: string): string {
    if parts == [] then ""
    else if |parts| == 1 then parts[0]
    else parts[0] + sep + Join(parts[1..], sep)
  }

  /** No separator starts inside `p`, even where `p` meets the separator that follows it. */
  ghost predicate Clean(p: string, sep: string) {
    forall j :: 0 <= j < |p| ==> !OccursAt(p + sep, sep, j)
  }

  lemma OccurrenceInPrefix(p: string, sep: string, rest: string, j: int)
    requires 0 <= j <= |p|
    ensures OccursAt(p + sep + rest, sep, j) <==> OccursAt(p + sep, sep, j)
  {
    if j + |sep| <= |p + sep| {
      assert (p + sep + rest)[j..j + |sep|] == (p + sep)[j..j + |sep|];
    }
  }

  /** A clean part is split off whole; of any other part only a shorter piece is. */
  lemma SplitHead(p: string, sep: string, rest: string)
    requires sep != ""
    ensures Clean(p, sep) ==> Split(p + sep + rest, sep) == [p] + Split(rest, sep)
    ensures !Clean(p, sep) ==> |Split(p + sep + rest, sep)[0]| < |p|
  {
    var s := p + sep + rest;
    assert OccursAt(s, sep, |p|) by {
      assert s[|p|..|p| + |sep|] == sep;
    }
    var i := IndexOf(s, sep);
    OccurrenceInPrefix(p, sep, rest, i.value);
    if Clean(p, sep) {
      assert i.value == |p| && s[..|p|] == p && s[|p| + |sep|..] == rest;
    } else {
      var j :| 0 <= j < |p| && OccursAt(p + sep, sep, j);
      OccurrenceInPrefix(p, sep, rest, j);
    }
  }

  lemma SplitOne(s: string, sep: string)
    requires sep != "" && !Includes(s, sep)
    ensures Split(s, sep) == [s]
  {
  }

  // ---- one-character separators ----

  lemma OccursChar(s: string, c: char, j: int)
    ensures OccursAt(s, [c], j) <==> 0 <= j < |s| && s[j] == c
  {
    if 0 <= j < |s| {
      assert s[j..j + 1] == [s[j]];
    }
  }

  lemma CleanOfChar(p: string, c: char)
    ensures Clean(p, [c]) <==> c !in p
  {
    forall j | 0 <= j < |p| ensures OccursAt(p + [c], [c], j) <==> p[j] == c {
      OccursChar(p + [c], c, j);
    }
  }

  lemma AbsentChar(s: string, c: char)
    requires c !in s
    ensures !Includes(s, [c])
  {
    forall i | 0 <= i <= |s| ensures !OccursAt(s, [c], i) {
      OccursChar(s, c, i);
    }
  }

  lemma {:induction false} SplitJoin(parts: seq<string>, c: char)
    requires parts != [] && forall i :: 0 <= i < |parts| ==> c !in parts[i]
    ensures Split(Join(parts, [c]), [c]) == parts
  {
    if |parts| == 1 {
      AbsentChar(parts[0], c);
      SplitOne(parts[0], [c]);
    } else {
      CleanOfChar(parts[0], c);
      SplitHead(parts[0], [c], Join(parts[1..], [c]));
      SplitJoin(parts[1..], c);
    }
  }

  /** What `split` returns never contains the separator, and joins back to the text. */
  lemma {:induction false} SplitParts(s: string, c: char)
    ensures forall i :: 0 <= i < |Split(s, [c])| ==> c !in Split(s, [c])[i]
    ensures Join(Split(s, [c]), [c]) == s
    decreases |s|
  {
    var i := IndexOf(s, [c]);
    if i.None? {
      forall k | 0 <= k < |s| ensures s[k] != c {
        OccursChar(s, c, k);
      }
    } else {
      var head, rest := s[..i.value], s[i.value + 1..];
      SplitParts(rest, c);
      forall k | 0 <= k < |head| ensures head[k] != c {
        OccursChar(s, c, k);
      }
      assert Split(s, [c])[1..] == Split(rest, [c]);
      OccursChar(s, c, i.value);
      assert s == head + [c] + rest;
    }
  }
}
