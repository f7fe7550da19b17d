/**
 * `Array.prototype.filter` over sequences, and the facts about it that the
 * text query relies on: membership, order, fusion of chained filters.
 */
module Filtering {

  /** The elements of `s` that `keep` accepts, in their original order. */
  function Filter<T>(s: seq<T>, keep: T -> bool): (r: seq<T>)
    ensures |r| <= |s|
    ensures forall k :: 0 <= k < |r| ==> r[k] in s && keep(r[k])
    ensures forall i :: 0 <= i < |s| && keep(s[i]) ==> s[i] in r
  {
    if s == [] then []
    else
      var rest := Filter(s[1..], keep);
      assert forall i :: 1 <= i < |s| ==> s[i] == s[1..][i - 1];
      if keep(s[0]) then [s[0]] + rest else rest
  }

  /** Every position in `ps` moved one place to the right. */
  function ShiftRight(ps: seq<nat>): (r: seq<nat>)
    ensures |r| == |ps|
    ensures forall k :: 0 <= k < |r| ==> r[k] == ps[k] + 1
  {
    seq(|ps|, k requires 0 <= k < |ps| => ps[k] + 1)
  }

  /** The positions of `s` whose elements `keep` accepts, in increasing order. */
  function Positions<T>(s: seq<T>, keep: T -> bool): (ps: seq<nat>)
    ensures forall k :: 0 <= k < |ps| ==> ps[k] < |s| && keep(s[ps[k]])
    ensures forall k, l :: 0 <= k < l < |ps| ==> ps[k] < ps[l]
  {
    if s == [] then []
    else
      var rest := ShiftRight(Positions(s[1..], keep));
      assert forall k :: 0 <= k < |rest| ==> s[rest[k]] == s[1..][rest[k] - 1];
      if keep(s[0]) then [0] + rest else rest
  }

  /** Every accepted position is listed. */
  lemma {:induction false} PositionsComplete<T>(s: seq<T>, keep: T -> bool, i: nat)
    requires i < |s| && keep(s[i])
    ensures i in Positions(s, keep)
  {
    if i > 0 {
      assert s[1..][i - 1] == s[i];
      PositionsComplete(s[1..], keep, i - 1);
      var rest := Positions(s[1..], keep);
      var k :| 0 <= k < |rest| && rest[k] == i - 1;
      assert ShiftRight(rest)[k] == i;
    }
  }

  /** `ps` maps each element of `a`, in order, to a position of `b` holding it. */
  ghost predicate Embedding<T>(a: seq<T>, b: seq<T>, ps: seq<nat>) {
    && |ps| == |a|
    && (forall k :: 0 <= k < |ps| ==> ps[k] < |b| && a[k] == b[ps[k]])
    && (forall k, l :: 0 <= k < l < |ps| ==> ps[k] < ps[l])
  }

  /** `a` is `b` with some elements dropped and the rest in their relative order. */
  ghost predicate IsOrderedSubsequence<T>(a: seq<T>, b: seq<T>) {
    exists ps :: Embedding(a, b, ps)
  }

  /** No element occurs twice. */
  ghost predicate Distinct<T>(s: seq<T>) {
    forall i, j :: 0 <= i < j < |s| ==> s[i] != s[j]
  }

  /** An embedding into the tail of `s` is, shifted right, an embedding into `s` avoiding position 0. */
  lemma ShiftEmbedding<T>(a: seq<T>, s: seq<T>, ps: seq<nat>)
    requires |s| > 0 && Embedding(a, s[1..], ps)
    ensures Embedding(a, s, ShiftRight(ps))
    ensures forall k :: 0 <= k < |ps| ==> ShiftRight(ps)[k] > 0
  {
    forall k | 0 <= k < |ps| ensures a[k] == s[ShiftRight(ps)[k]] {
      assert s[1..][ps[k]] == s[ps[k] + 1];
    }
  }

  /** An embedding avoiding position 0 extends by the element at position 0. */
  lemma ConsEmbedding<T>(a: seq<T>, s: seq<T>, ps: seq<nat>)
    requires |s| > 0 && Embedding(a, s, ps)
    requires forall k :: 0 <= k < |ps| ==> ps[k] > 0
    ensures Embedding([s[0]] + a, s, [0] + ps)
  {
    var a', ps' := [s[0]] + a, [0] + ps;
    forall k | 0 < k < |ps'| ensures ps'[k] < |s| && a'[k] == s[ps'[k]] {
      assert ps'[k] == ps[k - 1] && a'[k] == a[k - 1];
    }
  }

  /** The filter result is exactly `s` read at the accepted positions. */
  lemma {:induction false} FilterAtPositions<T>(s: seq<T>, keep: T -> bool)
    ensures Embedding(Filter(s, keep), s, Positions(s, keep))
  {
    if s != [] {
      var rest, ps := Filter(s[1..], keep), Positions(s[1..], keep);
      FilterAtPositions(s[1..], keep);
      ShiftEmbedding(rest, s, ps);
      if keep(s[0]) {
        ConsEmbedding(rest, s, ShiftRight(ps));
      }
    }
  }

  /** Filtering keeps relative order: its result is an ordered subsequence of the input. */
  lemma FilterIsOrderedSubsequence<T>(s: seq<T>, keep: T -> bool)
    ensures IsOrderedSubsequence(Filter(s, keep), s)
  {
    FilterAtPositions(s, keep);
  }

  /** Two chained filters are one filter on the conjunction of their predicates. */
  lemma {:induction false} FilterFuse<T>(s: seq<T>, p: T -> bool, q: T -> bool)
    ensures Filter(Filter(s, p), q) == Filter(s, x => p(x) && q(x))
  {
    if s != [] {
      FilterFuse(s[1..], p, q);
      if p(s[0]) {
        assert Filter(s, p) == [s[0]] + Filter(s[1..], p);
        assert ([s[0]] + Filter(s[1..], p))[1..] == Filter(s[1..], p);
      }
    }
  }

  /** Filters whose predicates agree on the elements of `s` give the same result. */
  lemma {:induction false} FilterAgree<T>(s: seq<T>, p: T -> bool, q: T -> bool)
    requires forall x :: x in s ==> p(x) == q(x)
    ensures Filter(s, p) == Filter(s, q)
  {
    if s != [] {
      assert forall x :: x in s[1..] ==> x in s;
      FilterAgree(s[1..], p, q);
    }
  }

  /** The order of two chained filters does not change the result. */
  lemma FilterCommute<T>(s: seq<T>, p: T -> bool, q: T -> bool)
    ensures Filter(Filter(s, p), q) == Filter(Filter(s, q), p)
  {
    FilterFuse(s, p, q);
    FilterFuse(s, q, p);
    FilterAgree(s, x => p(x) && q(x), x => q(x) && p(x));
  }

  /** A filter that accepts every element of `s` drops nothing. */
  lemma {:induction false} FilterKeepsAll<T>(s: seq<T>, keep: T -> bool)
    requires forall x :: x in s ==> keep(x)
    ensures Filter(s, keep) == s
  {
    if s != [] {
      assert forall x :: x in s[1..] ==> x in s;
      FilterKeepsAll(s[1..], keep);
      assert [s[0]] + s[1..] == s;
    }
  }

  /** Filtering distributes over concatenation. */
  lemma {:induction false} FilterConcat<T>(a: seq<T>, b: seq<T>, keep: T -> bool)
    ensures Filter(a + b, keep) == Filter(a, keep) + Filter(b, keep)
  {
    if a != [] {
      FilterConcat(a[1..], b, keep);
      assert (a + b)[1..] == a[1..] + b;
      assert (a + b)[0] == a[0];
    } else {
      assert a + b == b;
    }
  }

  /** Filtering a sequence without repetitions yields one without repetitions. */
  lemma {:induction false} FilterDistinct<T>(s: seq<T>, keep: T -> bool)
    requires Distinct(s)
    ensures Distinct(Filter(s, keep))
  {
    if s != [] {
      assert Distinct(s[1..]) by {
        forall i, j | 0 <= i < j < |s| - 1 ensures s[1..][i] != s[1..][j] {
          assert s[1..][i] == s[i + 1] && s[1..][j] == s[j + 1];
        }
      }
      FilterDistinct(s[1..], keep);
      assert s[0] !in s[1..] by {
        forall j | 0 <= j < |s| - 1 ensures s[1..][j] != s[0] {
          assert s[1..][j] == s[j + 1];
        }
      }
    }
  }
}
