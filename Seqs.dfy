/**
 * Sequence operations the model is built from: filtering a list by a
 * predicate (the program's two list comprehensions), mapping a function over
 * a list (one output per configured calendar) and flattening a list of lists
 * (used by the read-back proofs).
 */
module Seqs {

  /** `[x for x in s if p(x)]`. */
  function Filter<T>(s: seq<T>, p: T -> bool): (r: seq<T>)
    ensures |r| <= |s|
    ensures forall n :: 0 <= n < |r| ==> r[n] in s && p(r[n])
    ensures forall n :: 0 <= n < |s| && p(s[n]) ==> s[n] in r
  {
    if |s| == 0 then []
    else
      var init := s[..|s| - 1];
      assert s == init + [s[|s| - 1]];
      Filter(init, p) + (if p(s[|s| - 1]) then [s[|s| - 1]] else [])
  }

  /** The positions of `s` whose elements satisfy `p`, in increasing order. */
  ghost function KeptPositions<T>(s: seq<T>, p: T -> bool): seq<nat> {
    if |s| == 0 then []
    else
      var init := s[..|s| - 1];
      var last := |s| - 1;
      KeptPositions(init, p) + (if p(s[last]) then [last] else [])
  }

  /**
   * The kept positions are ascending, each holds an element satisfying `p`,
   * and every position holding such an element is among them.
   */
  lemma {:induction false} KeptPositionsExact<T>(s: seq<T>, p: T -> bool)
    ensures forall n :: 0 <= n < |KeptPositions(s, p)| ==>
      KeptPositions(s, p)[n] < |s| && p(s[KeptPositions(s, p)[n]])
    ensures forall n, m :: 0 <= n < m < |KeptPositions(s, p)| ==>
      KeptPositions(s, p)[n] < KeptPositions(s, p)[m]
    ensures forall j :: 0 <= j < |s| && p(s[j]) ==> j in KeptPositions(s, p)
  {
    if |s| > 0 {
      var init := s[..|s| - 1];
      KeptPositionsExact(init, p);
      forall j | 0 <= j < |init| ensures init[j] == s[j] { }
    }
  }

  /**
   * The filter keeps exactly the elements at the positions satisfying `p`,
   * each unchanged and in their original order.
   */
  lemma {:induction false} FilterAtKeptPositions<T>(s: seq<T>, p: T -> bool)
    ensures |Filter(s, p)| == |KeptPositions(s, p)|
    ensures forall n :: 0 <= n < |Filter(s, p)| ==>
      KeptPositions(s, p)[n] < |s| && Filter(s, p)[n] == s[KeptPositions(s, p)[n]]
  {
    if |s| > 0 {
      var init := s[..|s| - 1];
      FilterAtKeptPositions(init, p);
      KeptPositionsExact(init, p);
    }
  }

  lemma {:induction false} FilterKeepsAll<T>(s: seq<T>, p: T -> bool)
    requires forall n :: 0 <= n < |s| ==> p(s[n])
    ensures Filter(s, p) == s
  {
    if |s| > 0 {
      FilterKeepsAll(s[..|s| - 1], p);
    }
  }

  /** Filtering twice by the same predicate is filtering once. */
  lemma FilterIdempotent<T>(s: seq<T>, p: T -> bool)
    ensures Filter(Filter(s, p), p) == Filter(s, p)
  {
    var r := Filter(s, p);
    assert forall n :: 0 <= n < |r| ==> r[n] in r;
    FilterKeepsAll(r, p);
  }

  /** `[f(x) for x in s]`. */
  function Map<A, B>(s: seq<A>, f: A -> B): (r: seq<B>)
    ensures |r| == |s|
    ensures forall n :: 0 <= n < |s| ==> r[n] == f(s[n])
  {
    seq(|s|, n requires 0 <= n < |s| => f(s[n]))
  }

  lemma MapAppend<A, B>(a: seq<A>, b: seq<A>, f: A -> B)
    ensures Map(a + b, f) == Map(a, f) + Map(b, f)
  {
  }

  lemma MapSnoc<A, B>(s: seq<A>, i: int, f: A -> B)
    requires 0 <= i < |s|
    ensures Map(s[..i + 1], f) == Map(s[..i], f) + [f(s[i])]
  {
    assert s[..i + 1] == s[..i] + [s[i]];
    MapAppend(s[..i], [s[i]], f);
  }

  /** Filtering the images is mapping over the filtered originals. */
  lemma {:induction false} FilterMap<A, B>(s: seq<A>, f: A -> B, p: B -> bool, q: A -> bool)
    requires forall x :: q(x) == p(f(x))
    ensures Filter(Map(s, f), p) == Map(Filter(s, q), f)
  {
    if |s| > 0 {
      var init, last := s[..|s| - 1], s[|s| - 1];
      var kept := if q(last) then [last] else [];
      FilterMap(init, f, p, q);
      assert Map(s, f)[..|s| - 1] == Map(init, f);
      assert Filter(Map(s, f), p) == Filter(Map(init, f), p) + (if p(f(last)) then [f(last)] else []);
      assert Filter(s, q) == Filter(init, q) + kept;
      MapAppend(Filter(init, q), kept, f);
    }
  }

  lemma SliceSnoc<T>(s: seq<T>, lo: int, hi: int)
    requires 0 <= lo < hi <= |s|
    ensures s[lo..hi] == s[lo..hi - 1] + [s[hi - 1]]
  {
  }

  /** A slice of at least two elements is its first element, its inner part and its last element. */
  lemma SliceEnds<T>(s: seq<T>, lo: int, hi: int)
    requires 0 <= lo < hi < |s|
    ensures s[lo..hi + 1] == [s[lo]] + s[lo + 1..hi] + [s[hi]]
  {
  }

  /** A slice holding `a + b` holds `a` and then `b`. */
  lemma SliceOfAppend<T>(s: seq<T>, lo: int, a: seq<T>, b: seq<T>)
    requires 0 <= lo && lo + |a| + |b| <= |s| && s[lo..lo + |a| + |b|] == a + b
    ensures s[lo..lo + |a|] == a
    ensures s[lo + |a|..lo + |a| + |b|] == b
  {
    assert s[lo..lo + |a|] == s[lo..lo + |a| + |b|][..|a|];
    assert s[lo + |a|..lo + |a| + |b|] == s[lo..lo + |a| + |b|][|a|..];
  }

  /** The three parts of `a + b + c` are back at their offsets. */
  lemma ThreeParts<T>(a: seq<T>, b: seq<T>, c: seq<T>)
    ensures (a + b + c)[..|a|] == a
    ensures (a + b + c)[|a|..|a| + |b|] == b
    ensures (a + b + c)[|a| + |b|..] == c
  {
  }

  /** The elements of all the lists, one list after another. */
  function Concat<T>(ss: seq<seq<T>>): seq<T> {
    if |ss| == 0 then [] else Concat(ss[..|ss| - 1]) + ss[|ss| - 1]
  }

  /** The flattening of the first `m` lists is a prefix of the whole flattening. */
  lemma {:induction false} ConcatPrefix<T>(ss: seq<seq<T>>, m: int)
    requires 0 <= m <= |ss|
    ensures |Concat(ss[..m])| <= |Concat(ss)|
    ensures Concat(ss)[..|Concat(ss[..m])|] == Concat(ss[..m])
    decreases |ss| - m
  {
    if m < |ss| {
      var init := ss[..|ss| - 1];
      assert init[..m] == ss[..m];
      ConcatPrefix(init, m);
    } else {
      assert ss[..m] == ss;
    }
  }

  /** A property of every element of every list holds of every element of their flattening. */
  lemma {:induction false} ConcatAll<T>(ss: seq<seq<T>>, p: T -> bool)
    requires forall n, t :: 0 <= n < |ss| && 0 <= t < |ss[n]| ==> p(ss[n][t])
    ensures forall k :: 0 <= k < |Concat(ss)| ==> p(Concat(ss)[k])
  {
    if |ss| > 0 {
      var init := ss[..|ss| - 1];
      ConcatAll(init, p);
    }
  }
}
