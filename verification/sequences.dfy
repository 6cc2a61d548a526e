/** Generic facts about sequences used across the model. */
module Sequences {

  /** No element occurs twice. */
  predicate Distinct<T(==)>(s: seq<T>) {
    forall i, j :: 0 <= i < j < |s| ==> s[i] != s[j]
  }

  /** A list without repetitions has as many elements as its set. */
  lemma {:induction false} DistinctCard<T>(s: seq<T>)
    requires Distinct(s)
    ensures |set x | x in s| == |s|
  {
    if |s| > 0 {
      var rest := s[1..];
      DistinctCard(rest);
      assert (set x | x in s) == {s[0]} + (set x | x in rest);
      assert s[0] !in rest;
    }
  }

  /** `xs.filter(p)`: the elements `p` accepts, in order. */
  function Filter<T>(xs: seq<T>, p: T -> bool): (r: seq<T>)
    ensures |r| <= |xs|
    ensures forall k :: 0 <= k < |r| ==> p(r[k])
  {
    if |xs| == 0 then []
    else
      var rest := Filter(xs[..|xs| - 1], p);
      if p(xs[|xs| - 1]) then rest + [xs[|xs| - 1]] else rest
  }

  /** `idx` lists, in increasing order, the positions of `xs` that `r` is
      made of, and every position `p` accepts is among them. */
  ghost predicate Picks<T>(xs: seq<T>, r: seq<T>, idx: seq<nat>, p: T -> bool) {
    && |idx| == |r|
    && (forall k :: 0 <= k < |idx| ==> idx[k] < |xs| && r[k] == xs[idx[k]])
    && (forall k, l :: 0 <= k < l < |idx| ==> idx[k] < idx[l])
    && (forall i :: 0 <= i < |xs| && p(xs[i]) ==> i in idx)
  }

  /** The filtered list is a subsequence of the input that keeps every
      accepted element and nothing else. */
  lemma {:induction false} FilterPicks<T>(xs: seq<T>, p: T -> bool) returns (idx: seq<nat>)
    ensures Picks(xs, Filter(xs, p), idx, p)
  {
    if |xs| == 0 {
      idx := [];
    } else {
      var n := |xs| - 1;
      var sub := FilterPicks(xs[..n], p);
      if p(xs[n]) {
        idx := PicksKeep(xs, Filter(xs[..n], p), sub, p);
      } else {
        idx := PicksSkip(xs, Filter(xs[..n], p), sub, p);
      }
    }
  }

  lemma PicksKeep<T>(xs: seq<T>, r: seq<T>, sub: seq<nat>, p: T -> bool) returns (idx: seq<nat>)
    requires |xs| > 0 && p(xs[|xs| - 1])
    requires Picks(xs[..|xs| - 1], r, sub, p)
    ensures Picks(xs, r + [xs[|xs| - 1]], idx, p)
  {
    var n := |xs| - 1;
    idx := sub + [n];
    forall i | 0 <= i < |xs| && p(xs[i]) ensures i in idx {
      if i < n {
        assert xs[..n][i] == xs[i];
      }
    }
  }

  lemma PicksSkip<T>(xs: seq<T>, r: seq<T>, sub: seq<nat>, p: T -> bool) returns (idx: seq<nat>)
    requires |xs| > 0 && !p(xs[|xs| - 1])
    requires Picks(xs[..|xs| - 1], r, sub, p)
    ensures Picks(xs, r, idx, p)
  {
    var n := |xs| - 1;
    idx := sub;
    forall i | 0 <= i < |xs| && p(xs[i]) ensures i in idx {
      assert i < n;
      assert xs[..n][i] == xs[i];
    }
  }
}
