/**
  Array.prototype.filter on sequences: keep, in their original order, the
  elements that satisfy a predicate. The definition works from the back of the
  sequence, like the sorting functions it is combined with.
 */
module Filtering {

  /** The elements of `s` that satisfy `p`, in the order they occur in `s`. */
  function Filter<T>(s: seq<T>, p: T -> bool): seq<T>
    decreases |s|
  {
    if s == [] then []
    else Filter(s[..|s| - 1], p) + (if p(s[|s| - 1]) then [s[|s| - 1]] else [])
  }

  /** The indices of `s` whose elements satisfy `p`, in increasing order. */
  function Positions<T>(s: seq<T>, p: T -> bool): (idx: seq<nat>)
    ensures forall k :: 0 <= k < |idx| ==> idx[k] < |s| && p(s[idx[k]])
    ensures forall k, l :: 0 <= k < l < |idx| ==> idx[k] < idx[l]
    ensures forall i :: 0 <= i < |s| && p(s[i]) ==> i in idx
    decreases |s|
  {
    if s == [] then []
    else Positions(s[..|s| - 1], p) + (if p(s[|s| - 1]) then [|s| - 1] else [])
  }

  /** Filter keeps exactly the elements at Positions: it is the order-preserving
      subsequence of `s` made of the elements that satisfy `p`. */
  lemma {:induction false} FilterAtPositions<T>(s: seq<T>, p: T -> bool)
    ensures |Filter(s, p)| == |Positions(s, p)|
    ensures forall k :: 0 <= k < |Filter(s, p)| ==> Filter(s, p)[k] == s[Positions(s, p)[k]]
    decreases |s|
  {
    if s != [] {
      var init := s[..|s| - 1];
      FilterAtPositions(init, p);
      forall k | 0 <= k < |Positions(init, p)|
        ensures s[Positions(init, p)[k]] == init[Positions(init, p)[k]]
      {
      }
    }
  }

  lemma {:induction false} FilterConcat<T>(a: seq<T>, b: seq<T>, p: T -> bool)
    ensures Filter(a + b, p) == Filter(a, p) + Filter(b, p)
    decreases |b|
  {
    if b == [] {
      assert a + b == a;
    } else {
      assert (a + b)[..|a + b| - 1] == a + b[..|b| - 1];
      FilterConcat(a, b[..|b| - 1], p);
    }
  }

  /** Each value occurs in the result as often as in `s` when it satisfies `p`,
      and not at all otherwise. */
  lemma {:induction false} FilterCount<T>(s: seq<T>, p: T -> bool, x: T)
    ensures multiset(Filter(s, p))[x] == if p(x) then multiset(s)[x] else 0
    decreases |s|
  {
    if s != [] {
      var init := s[..|s| - 1];
      assert s == init + [s[|s| - 1]];
      FilterCount(init, p, x);
    }
  }

  /** Filtering two permutations of each other yields permutations of each other. */
  lemma FilterPermutation<T>(s: seq<T>, t: seq<T>, p: T -> bool)
    requires multiset(s) == multiset(t)
    ensures multiset(Filter(s, p)) == multiset(Filter(t, p))
  {
    var fs, ft := multiset(Filter(s, p)), multiset(Filter(t, p));
    forall x ensures fs[x] == ft[x] {
      FilterCount(s, p, x);
      FilterCount(t, p, x);
    }
    MultisetExt(fs, ft);
  }

  lemma MultisetExt<T>(a: multiset<T>, b: multiset<T>)
    requires forall x :: a[x] == b[x]
    ensures a == b
  {
  }

  lemma FilterSingle<T>(x: T, p: T -> bool)
    ensures Filter([x], p) == if p(x) then [x] else []
  {
    assert [x][..0] == [];
  }

  /** Filter returns `s` itself when the element at every index satisfies `p`. */
  lemma {:induction false} FilterKeepsEvery<T>(s: seq<T>, p: T -> bool)
    requires forall i :: 0 <= i < |s| ==> p(s[i])
    ensures Filter(s, p) == s
    decreases |s|
  {
    if s != [] {
      FilterKeepsEvery(s[..|s| - 1], p);
    }
  }

  /** Filter changes nothing exactly when every element already satisfies `p`. */
  lemma FilterKeepsAll<T>(s: seq<T>, p: T -> bool)
    ensures Filter(s, p) == s <==> forall x :: x in s ==> p(x)
  {
    if forall x :: x in s ==> p(x) {
      FilterKeepsEvery(s, p);
    } else {
      var x :| x in s && !p(x);
      FilterCount(s, p, x);
    }
  }

  lemma FilterIdempotent<T>(s: seq<T>, p: T -> bool)
    ensures Filter(Filter(s, p), p) == Filter(s, p)
  {
    forall x | x in Filter(s, p) ensures p(x) {
      FilterMembers(s, p, x);
    }
    FilterKeepsAll(Filter(s, p), p);
  }

  lemma FilterMembers<T>(s: seq<T>, p: T -> bool, x: T)
    ensures x in Filter(s, p) <==> x in s && p(x)
  {
    FilterCount(s, p, x);
    assert x in Filter(s, p) <==> x in multiset(Filter(s, p));
    assert x in s <==> x in multiset(s);
  }

  /** Two filters can be applied in either order. */
  lemma {:induction false} FilterCommute<T>(s: seq<T>, p: T -> bool, q: T -> bool)
    ensures Filter(Filter(s, p), q) == Filter(Filter(s, q), p)
    decreases |s|
  {
    if s != [] {
      var init, last := s[..|s| - 1], s[|s| - 1];
      FilterCommute(init, p, q);
      var kp := if p(last) then [last] else [];
      var kq := if q(last) then [last] else [];
      FilterConcat(Filter(init, p), kp, q);
      FilterConcat(Filter(init, q), kq, p);
      FilterSingle(last, p);
      FilterSingle(last, q);
    }
  }

  /** Two trailing elements that are not both kept can trade places. */
  lemma FilterSwapLast<T>(a: seq<T>, x: T, z: T, p: T -> bool)
    requires !(p(x) && p(z))
    ensures Filter(a + [x], p) + Filter([z], p) == Filter(a + [z], p) + Filter([x], p)
  {
    FilterConcat(a, [x], p);
    FilterConcat(a, [z], p);
    FilterSingle(x, p);
    FilterSingle(z, p);
  }

  /** When a single index `k` fails `p`, Filter removes exactly that element. */
  lemma {:induction false} FilterDropsOne<T>(s: seq<T>, p: T -> bool, k: nat)
    requires k < |s| && !p(s[k])
    requires forall i :: 0 <= i < |s| && i != k ==> p(s[i])
    ensures Filter(s, p) == s[..k] + s[k + 1..]
    decreases |s|
  {
    var init := s[..|s| - 1];
    if k == |s| - 1 {
      FilterKeepsEvery(init, p);
      assert s[k + 1..] == [];
    } else {
      FilterDropsOne(init, p, k);
      assert init[..k] == s[..k];
      assert init[k + 1..] + [s[|s| - 1]] == s[k + 1..];
    }
  }
}
