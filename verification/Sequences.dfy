/** Searching and counting in sequences, as Python's `find`, `count` and slicing do for `bytes` and `str`. */
module Sequences {

  type byte = x: int | 0 <= x < 256

  datatype Option<+T> = None | Some(value: T)

  /** `pat` stands at position `i` of `s`. */
  predicate At<T(==)>(s: seq<T>, pat: seq<T>, i: int) {
    0 <= i && i + |pat| <= |s| && s[i..i + |pat|] == pat
  }

  /** `s.find(pat, from)`: the leftmost occurrence at or after `from`, or -1. */
  function Find<T(==)>(s: seq<T>, pat: seq<T>, from: nat): (r: int)
    ensures r == -1 || (from <= r && At(s, pat, r))
    ensures forall j :: from <= j && At(s, pat, j) ==> r != -1 && r <= j
    decreases |s| - from
  {
    if from + |pat| > |s| then -1
    else if At(s, pat, from) then from
    else Find(s, pat, from + 1)
  }

  /** `s.count(pat)` on the part of `s` from `from` on: occurrences are counted left to right without overlap. */
  function Count<T(==)>(s: seq<T>, pat: seq<T>, from: nat): (n: nat)
    requires pat != []
    decreases |s| - from
  {
    var r := Find(s, pat, from);
    if r < 0 then 0 else 1 + Count(s, pat, r + |pat|)
  }

  /** Python's `s.count(pat)`, which on an empty pattern counts the gaps. */
  function PyCount<T(==)>(s: seq<T>, pat: seq<T>): nat {
    if pat == [] then |s| + 1 else Count(s, pat, 0)
  }

  /** `s[:from] + r + s[from + len(r):]` */
  function Splice<T>(s: seq<T>, from: nat, r: seq<T>): (t: seq<T>)
    requires from + |r| <= |s|
    ensures |t| == |s|
    ensures forall i :: 0 <= i < |s| ==> t[i] == if from <= i < from + |r| then r[i - from] else s[i]
  {
    s[..from] + r + s[from + |r|..]
  }

  lemma AtIndex<T>(s: seq<T>, pat: seq<T>, i: int)
    requires 0 <= i && i + |pat| <= |s|
    ensures At(s, pat, i) <==> forall k :: 0 <= k < |pat| ==> s[i + k] == pat[k]
  {
    var cut := s[i..i + |pat|];
    assert forall k :: 0 <= k < |pat| ==> cut[k] == s[i + k];
  }

  lemma ByteAt<T>(s: seq<T>, pat: seq<T>, i: int, k: nat)
    requires At(s, pat, i) && k < |pat|
    ensures s[i + k] == pat[k]
  {
    assert s[i..i + |pat|][k] == s[i + k];
  }

  lemma NotAt<T>(s: seq<T>, pat: seq<T>, i: int, k: nat)
    requires k < |pat| && (0 <= i && i + |pat| <= |s| ==> s[i + k] != pat[k])
    ensures !At(s, pat, i)
  {
    if At(s, pat, i) {
      ByteAt(s, pat, i, k);
    }
  }

  lemma AtConcat<T>(s: seq<T>, a: seq<T>, b: seq<T>, i: int)
    ensures At(s, a + b, i) <==> At(s, a, i) && At(s, b, i + |a|)
  {
    if 0 <= i && i + |a + b| <= |s| {
      var cut := s[i..i + |a + b|];
      assert cut[..|a|] == s[i..i + |a|];
      assert cut[|a|..] == s[i + |a|..i + |a| + |b|];
      assert cut == cut[..|a|] + cut[|a|..];
      assert (a + b)[..|a|] == a && (a + b)[|a|..] == b;
    }
  }

  /** A leftmost occurrence is determined by being an occurrence with none before it. */
  lemma FindIs<T>(s: seq<T>, pat: seq<T>, from: nat, r: nat)
    requires from <= r && At(s, pat, r)
    requires forall j :: from <= j < r ==> !At(s, pat, j)
    ensures Find(s, pat, from) == r
  {}

  lemma CountZero<T>(s: seq<T>, pat: seq<T>, from: nat)
    requires pat != []
    ensures Count(s, pat, from) == 0 <==> forall j :: from <= j ==> !At(s, pat, j)
  {}

  /**
   What `s.count(pat) == 1` says: there is an occurrence, and every occurrence starts inside the leftmost one.
   (A second occurrence that overlaps the first is not excluded.)
   */
  lemma CountOne<T>(s: seq<T>, pat: seq<T>)
    requires pat != []
    ensures Count(s, pat, 0) == 1 <==>
            var r := Find(s, pat, 0); r >= 0 && forall j :: At(s, pat, j) ==> r <= j < r + |pat|
  {
    var r := Find(s, pat, 0);
    if r >= 0 {
      CountZero(s, pat, r + |pat|);
    }
  }

  /** No proper shift of `pat` overlaps `pat` itself. */
  ghost predicate NoSelfOverlap<T>(pat: seq<T>) {
    forall d :: 0 < d < |pat| ==> pat[d..] != pat[..|pat| - d]
  }

  lemma OverlapIsShift<T>(s: seq<T>, pat: seq<T>, i: int, j: int)
    requires At(s, pat, i) && At(s, pat, j) && i < j < i + |pat|
    ensures pat[j - i..] == pat[..|pat| - (j - i)]
  {
    var d := j - i;
    AtIndex(s, pat, i);
    AtIndex(s, pat, j);
    assert forall k :: 0 <= k < |pat| - d ==> pat[d..][k] == s[i + (d + k)] == s[j + k] == pat[..|pat| - d][k];
  }

  /** Without self-overlap a count of one means exactly one occurrence. */
  lemma CountOneUnique<T>(s: seq<T>, pat: seq<T>)
    requires pat != [] && NoSelfOverlap(pat)
    ensures Count(s, pat, 0) == 1 <==> exists i :: At(s, pat, i) && forall j :: At(s, pat, j) ==> j == i
  {
    CountOne(s, pat);
    var r := Find(s, pat, 0);
    if Count(s, pat, 0) == 1 {
      forall j | At(s, pat, j) ensures j == r {
        if j != r {
          OverlapIsShift(s, pat, r, j);
        }
      }
    }
    if i :| At(s, pat, i) && forall j :: At(s, pat, j) ==> j == i {
      assert r == i;
    }
  }
}
