/** Sequence helpers for the list comprehensions of the source. */
module Seqs {

  /** `[x for x in s if keep(x)]`. */
  function Filter<T>(keep: T -> bool, s: seq<T>): (r: seq<T>)
    ensures |r| <= |s|
    decreases |s|
  {
    if s == [] then []
    else
      var init := Filter(keep, s[..|s| - 1]);
      if keep(s[|s| - 1]) then init + [s[|s| - 1]] else init
  }

  /** `Filter` keeps exactly the elements that `keep` selects. */
  lemma {:induction false} FilterMembers<T>(keep: T -> bool, s: seq<T>)
    ensures forall x :: x in Filter(keep, s) <==> x in s && keep(x)
    decreases |s|
  {
    if s != [] {
      var n := |s| - 1;
      FilterMembers(keep, s[..n]);
      assert s == s[..n] + [s[n]];
    }
  }

  /** The positions of `s` whose element `keep` selects, in increasing order. */
  ghost function KeptIndices<T>(keep: T -> bool, s: seq<T>): (idx: seq<nat>)
    ensures forall j :: 0 <= j < |idx| ==> idx[j] < |s| && keep(s[idx[j]])
    ensures forall j, k :: 0 <= j < k < |idx| ==> idx[j] < idx[k]
    ensures forall i :: 0 <= i < |s| && keep(s[i]) ==> i in idx
    decreases |s|
  {
    if s == [] then []
    else
      var n := |s| - 1;
      var init := KeptIndices(keep, s[..n]);
      assert forall j :: 0 <= j < |init| ==> s[init[j]] == s[..n][init[j]];
      assert forall i :: 0 <= i < n ==> s[i] == s[..n][i];
      if keep(s[n]) then init + [n] else init
  }

  /** Filtering a sequence with one more element. */
  lemma FilterSnoc<T>(keep: T -> bool, s: seq<T>, x: T)
    ensures Filter(keep, s + [x]) == if keep(x) then Filter(keep, s) + [x] else Filter(keep, s)
  {
    assert (s + [x])[..|s|] == s;
  }

  /** `Filter` keeps exactly the elements at `KeptIndices`, each once, in the order they have in `s`. */
  lemma {:induction false} FilterSelectsKept<T>(keep: T -> bool, s: seq<T>)
    ensures |Filter(keep, s)| == |KeptIndices(keep, s)|
    ensures forall j :: 0 <= j < |Filter(keep, s)| ==> Filter(keep, s)[j] == s[KeptIndices(keep, s)[j]]
    decreases |s|
  {
    if s != [] {
      var n := |s| - 1;
      var t := s[..n];
      FilterSelectsKept(keep, t);
      var f, idx := Filter(keep, t), KeptIndices(keep, t);
      var f', idx' := Filter(keep, s), KeptIndices(keep, s);
      assert f' == if keep(s[n]) then f + [s[n]] else f;
      assert idx' == if keep(s[n]) then idx + [n] else idx;
      forall j | 0 <= j < |f|
        ensures f'[j] == s[idx'[j]]
      {
        assert f'[j] == f[j] && idx'[j] == idx[j];
        assert s[idx[j]] == t[idx[j]];
      }
    }
  }

  /** Appending to the input appends the filtered tail to the output. */
  lemma {:induction false} FilterAppend<T>(keep: T -> bool, a: seq<T>, b: seq<T>)
    ensures Filter(keep, a + b) == Filter(keep, a) + Filter(keep, b)
    decreases |b|
  {
    if b == [] {
      assert a + b == a;
    } else {
      var b' := b[..|b| - 1];
      assert (a + b)[..|a + b| - 1] == a + b';
      FilterAppend(keep, a, b');
    }
  }

  /** Filtering twice is filtering once by both conditions. */
  lemma {:induction false} FilterFilter<T>(outer: T -> bool, inner: T -> bool, both: T -> bool, s: seq<T>)
    requires forall x :: both(x) == (inner(x) && outer(x))
    ensures Filter(outer, Filter(inner, s)) == Filter(both, s)
    decreases |s|
  {
    if s != [] {
      var n := |s| - 1;
      FilterFilter(outer, inner, both, s[..n]);
      var f := Filter(inner, s[..n]);
      if inner(s[n]) {
        assert (f + [s[n]])[..|f|] == f;
      }
    }
  }

  /** `[f(x) for x in s]`. */
  function MapSeq<T, U>(f: T -> U, s: seq<T>): (r: seq<U>)
    ensures |r| == |s|
  {
    seq(|s|, i requires 0 <= i < |s| => f(s[i]))
  }
}
