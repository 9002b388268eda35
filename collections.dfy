/** Sequence helpers shared by the sanitiser and the security log: `Array.prototype.filter`
    and the "ordered sub-sequence" relation used to state that a filter keeps input order. */
module Collections {

  /** `s.startsWith(p)`: `p` is a prefix of `s`. */
  predicate StartsWith<T(==)>(s: seq<T>, p: seq<T>)
    ensures StartsWith(s, p) <==> |p| <= |s| && forall i :: 0 <= i < |p| ==> s[i] == p[i]
  {
    |p| <= |s| && s[..|p|] == p
  }

  /** A sequence whose first element differs from that of `p` does not start with `p`. */
  lemma FirstDiffers<T>(s: seq<T>, p: seq<T>)
    requires s != [] && p != [] && s[0] != p[0]
    ensures !StartsWith(s, p)
  {
    if |p| <= |s| {
      assert s[..|p|][0] != p[0];
    }
  }

  /** The first two of five concatenated sequences are a prefix of the whole. */
  lemma PrefixOfConcat<T>(a: seq<T>, b: seq<T>, c: seq<T>, d: seq<T>, e: seq<T>)
    ensures StartsWith(a + b + c + d + e, a + b)
  {
    assert (a + b + c + d + e)[..|a + b|] == a + b;
  }

  /** `s` occurs in `r` at position `k`. */
  predicate OccursAt<T(==)>(s: seq<T>, r: seq<T>, k: int)
  {
    0 <= k <= |r| - |s| && r[k..k + |s|] == s
  }

  /** `s` occurs in `r` at some position. */
  ghost predicate Occurs<T>(s: seq<T>, r: seq<T>)
  {
    exists k :: OccursAt(s, r, k)
  }

  /** `p` occurs in `s` exactly when it is a prefix of `s` or occurs in the rest of `s`. */
  lemma OccursShift<T>(p: seq<T>, s: seq<T>)
    ensures Occurs(p, s) <==> StartsWith(s, p) || (s != [] && Occurs(p, s[1..]))
  {
    if StartsWith(s, p) {
      assert OccursAt(p, s, 0);
    }
    if s != [] && Occurs(p, s[1..]) {
      var k :| OccursAt(p, s[1..], k);
      assert s[1..][k..k + |p|] == s[k + 1..k + 1 + |p|];
      assert OccursAt(p, s, k + 1);
    }
    if Occurs(p, s) {
      var k :| OccursAt(p, s, k);
      if k > 0 {
        assert s[k..k + |p|] == s[1..][k - 1..k - 1 + |p|];
        assert OccursAt(p, s[1..], k - 1);
      }
    }
  }

  /** `s.filter(keep)`: the elements of `s` that satisfy `keep`, in their original order. */
  function Filter<T>(s: seq<T>, keep: T -> bool): (r: seq<T>)
    ensures |r| <= |s|
    ensures forall x :: x in r ==> x in s && keep(x)
  {
    if s == [] then []
    else (if keep(s[0]) then [s[0]] else []) + Filter(s[1..], keep)
  }

  /** The filter keeps every selected element as often as it occurs, and nothing else. */
  lemma {:induction false} FilterCounts<T>(s: seq<T>, keep: T -> bool)
    ensures forall x :: x in s ==> multiset(Filter(s, keep))[x] == if keep(x) then multiset(s)[x] else 0
  {
    if s != [] {
      FilterCounts(s[1..], keep);
      assert s == [s[0]] + s[1..];
    }
  }

  /** `r` can be obtained from `s` by deleting elements, without reordering the rest. */
  predicate IsSubsequence<T(==)>(r: seq<T>, s: seq<T>)
    decreases |s|
  {
    if r == [] then true
    else if s == [] then false
    else if r[0] == s[0] then IsSubsequence(r[1..], s[1..])
    else IsSubsequence(r, s[1..])
  }

  lemma {:induction false} FilterKeepsEverySelected<T>(s: seq<T>, keep: T -> bool, x: T)
    requires x in s && keep(x)
    ensures x in Filter(s, keep)
  {
    if s[0] != x {
      FilterKeepsEverySelected(s[1..], keep, x);
    }
  }

  lemma {:induction false} FilterIsSubsequence<T>(s: seq<T>, keep: T -> bool)
    ensures IsSubsequence(Filter(s, keep), s)
  {
    if s != [] {
      FilterIsSubsequence(s[1..], keep);
      if !keep(s[0]) {
        assert Filter(s, keep) == Filter(s[1..], keep);
      }
    }
  }

  lemma {:induction false} FilterAppend<T>(s: seq<T>, t: seq<T>, keep: T -> bool)
    ensures Filter(s + t, keep) == Filter(s, keep) + Filter(t, keep)
  {
    if s == [] {
      assert s + t == t;
    } else {
      assert (s + t)[1..] == s[1..] + t;
      FilterAppend(s[1..], t, keep);
    }
  }

  /** A prefix of a sub-sequence is still a sub-sequence. */
  lemma {:induction false} PrefixOfSubsequence<T>(r: seq<T>, s: seq<T>, n: nat)
    requires n <= |r| && IsSubsequence(r, s)
    ensures IsSubsequence(r[..n], s)
    decreases |s|
  {
    if n == 0 || r == [] {
    } else if r[0] == s[0] {
      assert r[..n][1..] == r[1..][..n - 1];
      PrefixOfSubsequence(r[1..], s[1..], n - 1);
    } else {
      PrefixOfSubsequence(r, s[1..], n);
    }
  }
}
