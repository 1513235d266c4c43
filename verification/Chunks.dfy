/** lodash `chunk`: cut a list into pieces of a given size. */
module Chunks {

  function Chunk<T>(s: seq<T>, size: nat): (chunks: seq<seq<T>>)
    decreases |s|
  {
    if s == [] || size == 0 then []
    else if |s| <= size then [s]
    else [s[..size]] + Chunk(s[size..], size)
  }

  function Concat<T>(chunks: seq<seq<T>>): seq<T> {
    if chunks == [] then [] else chunks[0] + Concat(chunks[1..])
  }

  /** Chunking loses, repeats and reorders nothing, whatever the size. */
  lemma {:induction false} ConcatOfChunks<T>(s: seq<T>, size: nat)
    requires size > 0
    ensures Concat(Chunk(s, size)) == s
    ensures forall i :: 0 <= i < |Chunk(s, size)| ==> 0 < |Chunk(s, size)[i]| <= size
    decreases |s|
  {
    if s == [] {
    } else if |s| <= size {
      assert Concat([s]) == s + Concat([]);
    } else {
      ConcatOfChunks(s[size..], size);
      var c := Chunk(s, size);
      assert c[0] == s[..size] && c[1..] == Chunk(s[size..], size);
      assert s == s[..size] + s[size..];
    }
  }

  /** All chunks are full but possibly the last. */
  lemma {:induction false} ChunksAreFull<T>(s: seq<T>, size: nat)
    requires size > 0
    ensures forall i :: 0 <= i < |Chunk(s, size)| - 1 ==> |Chunk(s, size)[i]| == size
    decreases |s|
  {
    if |s| > size {
      ChunksAreFull(s[size..], size);
    }
  }

  lemma {:induction false} ConcatAppend<T>(a: seq<seq<T>>, b: seq<seq<T>>)
    ensures Concat(a + b) == Concat(a) + Concat(b)
  {
    if a == [] {
      assert a + b == b;
    } else {
      assert (a + b)[0] == a[0] && (a + b)[1..] == a[1..] + b;
      ConcatAppend(a[1..], b);
    }
  }

  /** One more chunk processed. */
  lemma ConcatSnoc<T>(chunks: seq<seq<T>>, i: nat)
    requires i < |chunks|
    ensures Concat(chunks[..i + 1]) == Concat(chunks[..i]) + chunks[i]
  {
    assert chunks[..i + 1] == chunks[..i] + [chunks[i]];
    ConcatAppend(chunks[..i], [chunks[i]]);
    assert Concat([chunks[i]]) == chunks[i] + Concat([]);
  }
}
