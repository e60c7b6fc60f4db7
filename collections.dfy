/** JavaScript's `Array.prototype.filter` over sequences, and the order-preserving
    subsequence relation it establishes. Every `.filter(...)` in the system (the task
    owner scope, the dashboard search, the status counts, the toast removal) is an
    instance of `Filter`. */
module Collections {

  /** `a` can be obtained from `b` by deleting elements, keeping the order of the rest. */
  predicate IsSubsequence<T(==)>(a: seq<T>, b: seq<T>)
    decreases |b|
  {
    a == [] || (b != [] && ((a[0] == b[0] && IsSubsequence(a[1..], b[1..])) || IsSubsequence(a, b[1..])))
  }

  /** The elements of `s` for which `keep` holds, in their original order. */
  function Filter<T(==)>(s: seq<T>, keep: T -> bool): (r: seq<T>)
    ensures |r| <= |s|
    ensures forall i :: 0 <= i < |r| ==> r[i] in s && keep(r[i])
    ensures forall i :: 0 <= i < |s| && keep(s[i]) ==> s[i] in r
    ensures IsSubsequence(r, s)
  {
    if s == [] then []
    else if keep(s[0]) then [s[0]] + Filter(s[1..], keep)
    else Filter(s[1..], keep)
  }

  /** Filtering with a predicate that holds everywhere on `s` gives `s` back. */
  lemma {:induction false} FilterKeepsAll<T>(s: seq<T>, keep: T -> bool)
    requires forall x :: x in s ==> keep(x)
    ensures Filter(s, keep) == s
  {
    if s != [] {
      FilterKeepsAll(s[1..], keep);
    }
  }

  /** Filtering distributes over concatenation. */
  lemma {:induction false} FilterAppend<T>(s: seq<T>, t: seq<T>, keep: T -> bool)
    ensures Filter(s + t, keep) == Filter(s, keep) + Filter(t, keep)
  {
    if s == [] {
      assert s + t == t;
    } else {
      assert (s + t)[1..] == s[1..] + t;
      FilterAppend(s[1..], t, keep);
    }
  }

  /** Dropping elements with `p` first changes nothing for a later filter with `q`
      when every element that `q` keeps also passes `p`. */
  lemma {:induction false} FilterFilter<T>(s: seq<T>, p: T -> bool, q: T -> bool)
    requires forall x :: x in s && q(x) ==> p(x)
    ensures Filter(Filter(s, p), q) == Filter(s, q)
  {
    if s != [] {
      FilterFilter(s[1..], p, q);
    }
  }

  /** `before` holds of every earlier and later element of `s`. */
  ghost predicate Pairwise<T>(s: seq<T>, before: (T, T) -> bool)
  {
    forall i, j :: 0 <= i < j < |s| ==> before(s[i], s[j])
  }

  lemma PairwiseCons<T>(x: T, rest: seq<T>, before: (T, T) -> bool)
    requires Pairwise(rest, before)
    requires forall j :: 0 <= j < |rest| ==> before(x, rest[j])
    ensures Pairwise([x] + rest, before)
  {
    var r := [x] + rest;
    forall i, j | 0 <= i < j < |r| ensures before(r[i], r[j]) {
      if i == 0 {
        assert r[j] == rest[j - 1];
      } else {
        assert r[i] == rest[i - 1] && r[j] == rest[j - 1];
      }
    }
  }

  /** A relation between every earlier and later element still holds after
      filtering. */
  lemma {:induction false} FilterPairwise<T>(s: seq<T>, keep: T -> bool, before: (T, T) -> bool)
    requires Pairwise(s, before)
    ensures Pairwise(Filter(s, keep), before)
  {
    if s != [] {
      assert Pairwise(s[1..], before) by {
        forall i, j | 0 <= i < j < |s[1..]| ensures before(s[1..][i], s[1..][j]) {
          assert s[1..][i] == s[i + 1] && s[1..][j] == s[j + 1];
        }
      }
      FilterPairwise(s[1..], keep, before);
      if keep(s[0]) {
        var rest := Filter(s[1..], keep);
        forall j | 0 <= j < |rest| ensures before(s[0], rest[j]) {
          var k :| 0 <= k < |s[1..]| && s[1..][k] == rest[j];
          assert s[k + 1] == rest[j];
        }
        PairwiseCons(s[0], rest, before);
      }
    }
  }

  /** The number of elements of `s` for which `keep` holds: `s.filter(keep).length`. */
  function Count<T(==)>(s: seq<T>, keep: T -> bool): (n: nat)
    ensures n <= |s|
  {
    |Filter(s, keep)|
  }
}
