/**
 The array operations the stores and pages are built from: `map`, `find`,
 `filter` and the insertion-ordered de-duplication of `Array.from(new Set(..))`,
 each with the properties the rest of the model relies on.
 */
module Seqs {
  import opened Options

  /** `s.map(f)`. */
  function Map<T, U>(s: seq<T>, f: T -> U): (r: seq<U>)
    ensures |r| == |s|
    ensures forall i :: 0 <= i < |s| ==> r[i] == f(s[i])
  {
    if s == [] then [] else [f(s[0])] + Map(s[1..], f)
  }

  /** Position `i` holds the first element of `s` that satisfies `p`. */
  ghost predicate IsFirst<T>(s: seq<T>, p: T -> bool, i: int) {
    && 0 <= i < |s|
    && p(s[i])
    && forall j :: 0 <= j < i ==> !p(s[j])
  }

  /** At most one position is the first match. */
  lemma FirstIsUnique<T>(s: seq<T>, p: T -> bool, i: int, j: int)
    requires IsFirst(s, p, i) && IsFirst(s, p, j)
    ensures i == j
  {
  }

  /** `s.findIndex(p)`, with `None` for the source's -1. */
  function FindIndex<T>(s: seq<T>, p: T -> bool): (r: Option<nat>)
    ensures r.None? <==> forall i :: 0 <= i < |s| ==> !p(s[i])
    ensures r.Some? ==> IsFirst(s, p, r.value)
  {
    if s == [] then None
    else if p(s[0]) then Some(0)
    else
      match FindIndex(s[1..], p)
      case None => None
      case Some(k) => Some(k + 1)
  }

  /** `s.find(p)`: the first element satisfying `p`, if any. */
  function Find<T>(s: seq<T>, p: T -> bool): (r: Option<T>)
    ensures r.None? <==> forall i :: 0 <= i < |s| ==> !p(s[i])
    ensures r.Some? ==> exists i :: IsFirst(s, p, i) && s[i] == r.value
  {
    match FindIndex(s, p)
    case None => None
    case Some(i) => Some(s[i])
  }

  /** `s.filter(p)`. */
  function Filter<T(!new)>(s: seq<T>, p: T -> bool): (r: seq<T>)
    ensures |r| <= |s|
    ensures forall i :: 0 <= i < |r| ==> p(r[i])
    ensures forall x :: x in r <==> x in s && p(x)
  {
    if s == [] then [] else (if p(s[0]) then [s[0]] else []) + Filter(s[1..], p)
  }

  /** `idx` lists, in strictly increasing order, positions of `s` that spell out `r`. */
  ghost predicate Embeds<T>(idx: seq<nat>, r: seq<T>, s: seq<T>) {
    && |idx| == |r|
    && (forall k :: 0 <= k < |idx| ==> idx[k] < |s| && s[idx[k]] == r[k])
    && (forall k, l :: 0 <= k < l < |idx| ==> idx[k] < idx[l])
  }

  /** `r` is `s` with some elements dropped and the rest kept in their order. */
  ghost predicate IsSubsequence<T>(r: seq<T>, s: seq<T>) {
    exists idx :: Embeds(idx, r, s)
  }

  /** Every position moved one place right. */
  ghost function Shift(idx: seq<nat>): (r: seq<nat>)
    ensures |r| == |idx|
    ensures forall k :: 0 <= k < |idx| ==> r[k] == idx[k] + 1
  {
    seq(|idx|, k requires 0 <= k < |idx| => idx[k] + 1)
  }

  /** An embedding survives putting an element in front of the longer sequence. */
  lemma EmbedsSkip<T>(idx: seq<nat>, r: seq<T>, s: seq<T>, x: T)
    requires Embeds(idx, r, s)
    ensures Embeds(Shift(idx), r, [x] + s)
  {
  }

  /** An embedding extends by matching a common first element. */
  lemma EmbedsKeep<T>(idx: seq<nat>, r: seq<T>, s: seq<T>, x: T)
    requires Embeds(idx, r, s)
    ensures Embeds([0] + Shift(idx), [x] + r, [x] + s)
  {
    var full := [0] + Shift(idx);
    forall k | 0 <= k < |full|
      ensures full[k] < |[x] + s| && ([x] + s)[full[k]] == ([x] + r)[k]
    {
      if k > 0 {
        assert full[k] == idx[k - 1] + 1;
      }
    }
  }

  /** Filtering keeps the survivors in their original order. */
  lemma {:induction false} FilterIsSubsequence<T(!new)>(s: seq<T>, p: T -> bool)
    ensures IsSubsequence(Filter(s, p), s)
  {
    if s == [] {
      assert Embeds([], Filter(s, p), s);
    } else {
      var tail := Filter(s[1..], p);
      FilterIsSubsequence(s[1..], p);
      var idx :| Embeds(idx, tail, s[1..]);
      assert s == [s[0]] + s[1..];
      if p(s[0]) {
        EmbedsKeep(idx, tail, s[1..], s[0]);
        assert Embeds([0] + Shift(idx), Filter(s, p), s);
      } else {
        EmbedsSkip(idx, tail, s[1..], s[0]);
        assert Embeds(Shift(idx), Filter(s, p), s);
      }
    }
  }

  /** Filtering distributes over concatenation. */
  lemma {:induction false} FilterAppend<T(!new)>(s: seq<T>, t: seq<T>, p: T -> bool)
    ensures Filter(s + t, p) == Filter(s, p) + Filter(t, p)
  {
    if s == [] {
      assert s + t == t;
    } else {
      assert (s + t)[0] == s[0];
      assert (s + t)[1..] == s[1..] + t;
      FilterAppend(s[1..], t, p);
    }
  }

  /** Exactly one of three conditions holds. */
  predicate ExactlyOne(a: bool, b: bool, c: bool) {
    (a && !b && !c) || (!a && b && !c) || (!a && !b && c)
  }

  /** Three filters whose conditions split every element three ways together keep each element once. */
  lemma {:induction false} FilterPartition<T(!new)>(s: seq<T>, p: T -> bool, q: T -> bool, u: T -> bool)
    requires forall i :: 0 <= i < |s| ==> ExactlyOne(p(s[i]), q(s[i]), u(s[i]))
    ensures |Filter(s, p)| + |Filter(s, q)| + |Filter(s, u)| == |s|
  {
    if s != [] {
      assert ExactlyOne(p(s[0]), q(s[0]), u(s[0]));
      FilterPartition(s[1..], p, q, u);
    }
  }

  /** No value occurs twice. */
  ghost predicate NoDuplicates<T>(s: seq<T>) {
    forall i, j :: 0 <= i < j < |s| ==> s[i] != s[j]
  }

  /**
   The values of `s`, each kept at its first occurrence: what a JavaScript
   `Set` built from `s` yields when iterated.
   */
  function Distinct<T(==,!new)>(s: seq<T>): (r: seq<T>)
    ensures forall x :: x in r <==> x in s
    ensures NoDuplicates(r)
    decreases |s|
  {
    if s == [] then []
    else
      var init := s[..|s| - 1];
      assert s == init + [s[|s| - 1]];
      Distinct(init) + (if s[|s| - 1] in init then [] else [s[|s| - 1]])
  }
}
