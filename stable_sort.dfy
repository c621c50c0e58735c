/**
  The stable sort that Array.prototype.sort performs (section 23.1.3.30 of
  ECMA-262, 2023 edition, requires stability). A comparator `cmp` is used
  through the relation `le(a, b) := cmp(a, b) <= 0`; a consistent comparator
  makes `le` a total preorder. The specification is a stable insertion sort on
  sequences; SortInPlace performs it on an array.
 */
module StableSort {
  import opened Filtering

  /** `le` is total (hence reflexive) and transitive. */
  ghost predicate TotalPreorder<T(!new)>(le: (T, T) -> bool) {
    && (forall a, b :: le(a, b) || le(b, a))
    && (forall a, b, c :: le(a, b) && le(b, c) ==> le(a, c))
  }

  ghost predicate Sorted<T>(le: (T, T) -> bool, s: seq<T>) {
    forall i, j :: 0 <= i < j < |s| ==> le(s[i], s[j])
  }

  /** The elements that compare equal to `y`: the comparator returns 0 both ways. */
  function TiesWith<T>(le: (T, T) -> bool, y: T): T -> bool {
    x => le(x, y) && le(y, x)
  }

  /** `x` inserted after the last element of `t` that does not compare greater. */
  function Insert<T>(le: (T, T) -> bool, t: seq<T>, x: T): seq<T>
    decreases |t|
  {
    if t == [] then [x]
    else if le(t[|t| - 1], x) then t + [x]
    else Insert(le, t[..|t| - 1], x) + [t[|t| - 1]]
  }

  /** Insertion sort, taking the elements of `s` from left to right. */
  function Sort<T>(le: (T, T) -> bool, s: seq<T>): seq<T>
    decreases |s|
  {
    if s == [] then []
    else Insert(le, Sort(le, s[..|s| - 1]), s[|s| - 1])
  }

  lemma {:induction false} InsertPermutation<T>(le: (T, T) -> bool, t: seq<T>, x: T)
    ensures multiset(Insert(le, t, x)) == multiset(t) + multiset{x}
    decreases |t|
  {
    if t != [] && !le(t[|t| - 1], x) {
      var init := t[..|t| - 1];
      InsertPermutation(le, init, x);
      assert t == init + [t[|t| - 1]];
    }
  }

  /** Sort returns a permutation of its input. */
  lemma {:induction false} SortPermutation<T>(le: (T, T) -> bool, s: seq<T>)
    ensures multiset(Sort(le, s)) == multiset(s)
    decreases |s|
  {
    if s != [] {
      var init := s[..|s| - 1];
      SortPermutation(le, init);
      InsertPermutation(le, Sort(le, init), s[|s| - 1]);
      assert s == init + [s[|s| - 1]];
    }
  }

  lemma {:induction false} InsertSorted<T(!new)>(le: (T, T) -> bool, t: seq<T>, x: T)
    requires TotalPreorder(le) && Sorted(le, t)
    ensures Sorted(le, Insert(le, t, x))
    decreases |t|
  {
    if t != [] && !le(t[|t| - 1], x) {
      var init, last := t[..|t| - 1], t[|t| - 1];
      InsertSorted(le, init, x);
      var r := Insert(le, init, x);
      InsertPermutation(le, init, x);
      forall e | e in r ensures le(e, last) {
        assert e in multiset(r);
        if e != x {
          assert e in multiset(init);
          var i :| 0 <= i < |init| && init[i] == e;
          assert t[i] == e;
        }
      }
    }
  }

  /** Sort returns its input ordered by `le`. */
  lemma {:induction false} SortSorted<T(!new)>(le: (T, T) -> bool, s: seq<T>)
    requires TotalPreorder(le)
    ensures Sorted(le, Sort(le, s))
    decreases |s|
  {
    if s != [] {
      SortSorted(le, s[..|s| - 1]);
      InsertSorted(le, Sort(le, s[..|s| - 1]), s[|s| - 1]);
    }
  }

  /** Inserting never moves `x` in front of an element it ties with. */
  lemma {:induction false} InsertStable<T(!new)>(le: (T, T) -> bool, t: seq<T>, x: T, y: T)
    requires TotalPreorder(le)
    ensures Filter(Insert(le, t, x), TiesWith(le, y)) == Filter(t + [x], TiesWith(le, y))
    decreases |t|
  {
    var tie := TiesWith(le, y);
    if t != [] && !le(t[|t| - 1], x) {
      var init, last := t[..|t| - 1], t[|t| - 1];
      InsertStable(le, init, x, y);
      assert !(tie(x) && tie(last));
      assert init + [last] == t;
      FilterConcat(Insert(le, init, x), [last], tie);
      FilterSwapLast(init, x, last, tie);
      FilterConcat(t, [x], tie);
    }
  }

  /** Stability: the elements that tie with any `y` keep their relative order. */
  lemma {:induction false} SortStable<T(!new)>(le: (T, T) -> bool, s: seq<T>, y: T)
    requires TotalPreorder(le)
    ensures Filter(Sort(le, s), TiesWith(le, y)) == Filter(s, TiesWith(le, y))
    decreases |s|
  {
    if s != [] {
      var init, last := s[..|s| - 1], s[|s| - 1];
      var tie := TiesWith(le, y);
      var sorted := Sort(le, init);
      calc {
        Filter(Sort(le, s), tie);
        Filter(Insert(le, sorted, last), tie);
        { InsertStable(le, sorted, last, y); }
        Filter(sorted + [last], tie);
        { FilterConcat(sorted, [last], tie); }
        Filter(sorted, tie) + Filter([last], tie);
        { SortStable(le, init, y); }
        Filter(init, tie) + Filter([last], tie);
        { FilterConcat(init, [last], tie); assert init + [last] == s; }
        Filter(s, tie);
      }
    }
  }

  /** Every element of a sorted sequence precedes its last element. */
  lemma SortedLast<T(!new)>(le: (T, T) -> bool, r: seq<T>, e: T)
    requires TotalPreorder(le) && Sorted(le, r) && e in r
    ensures le(e, r[|r| - 1])
  {
    var i :| 0 <= i < |r| && r[i] == e;
    if i == |r| - 1 {
      assert le(e, e);
    }
  }

  /** Sequences that agree on every tie class hold the same elements. */
  lemma SameTiesSameMultiset<T(!new)>(le: (T, T) -> bool, r1: seq<T>, r2: seq<T>)
    requires TotalPreorder(le)
    requires forall y :: Filter(r1, TiesWith(le, y)) == Filter(r2, TiesWith(le, y))
    ensures multiset(r1) == multiset(r2) && |r1| == |r2|
  {
    forall x ensures multiset(r1)[x] == multiset(r2)[x] {
      assert Filter(r1, TiesWith(le, x)) == Filter(r2, TiesWith(le, x));
      assert le(x, x);
      FilterCount(r1, TiesWith(le, x), x);
      FilterCount(r2, TiesWith(le, x), x);
    }
    MultisetExt(multiset(r1), multiset(r2));
    assert |multiset(r1)| == |r1| && |multiset(r2)| == |r2|;
  }

  /** Sorted sequences that agree on every tie class end with the same element. */
  lemma SameTiesSameLast<T(!new)>(le: (T, T) -> bool, r1: seq<T>, r2: seq<T>)
    requires TotalPreorder(le) && Sorted(le, r1) && Sorted(le, r2) && r1 != []
    requires forall y :: Filter(r1, TiesWith(le, y)) == Filter(r2, TiesWith(le, y))
    ensures |r1| == |r2| && r1[|r1| - 1] == r2[|r2| - 1]
  {
    SameTiesSameMultiset(le, r1, r2);
    var n := |r1| - 1;
    var x1, x2 := r1[n], r2[n];
    assert x2 in multiset(r1) && x1 in multiset(r2);
    SortedLast(le, r1, x2);
    SortedLast(le, r2, x1);
    var tie := TiesWith(le, x1);
    assert tie(x1) && tie(x2);
    var f1, f2 := Filter(r1, tie), Filter(r2, tie);
    assert f1 == Filter(r1[..n], tie) + [x1];
    assert f2 == Filter(r2[..n], tie) + [x2];
    assert f1 == f2;
    assert f1[|f1| - 1] == x1 && f2[|f2| - 1] == x2;
  }

  /** Dropping the same last element keeps every tie class in agreement. */
  lemma SameTiesDropLast<T>(le: (T, T) -> bool, r1: seq<T>, r2: seq<T>, y: T)
    requires r1 != [] && |r1| == |r2| && r1[|r1| - 1] == r2[|r2| - 1]
    requires Filter(r1, TiesWith(le, y)) == Filter(r2, TiesWith(le, y))
    ensures Filter(r1[..|r1| - 1], TiesWith(le, y)) == Filter(r2[..|r2| - 1], TiesWith(le, y))
  {
    var ty := TiesWith(le, y);
    var last := r1[|r1| - 1];
    var tail := if ty(last) then [last] else [];
    var f1, f2 := Filter(r1[..|r1| - 1], ty), Filter(r2[..|r2| - 1], ty);
    assert f1 + tail == f2 + tail;
    assert f1 == (f1 + tail)[..|f1|];
    assert f2 == (f2 + tail)[..|f2|];
  }

  /** Two sorted sequences with the same elements in every tie class, in the
      same order, are equal. */
  lemma {:induction false} StableSortUnique<T(!new)>(le: (T, T) -> bool, r1: seq<T>, r2: seq<T>)
    requires TotalPreorder(le) && Sorted(le, r1) && Sorted(le, r2)
    requires forall y :: Filter(r1, TiesWith(le, y)) == Filter(r2, TiesWith(le, y))
    ensures r1 == r2
    decreases |r1|
  {
    SameTiesSameMultiset(le, r1, r2);
    if r1 != [] {
      SameTiesSameLast(le, r1, r2);
      var n := |r1| - 1;
      forall y ensures Filter(r1[..n], TiesWith(le, y)) == Filter(r2[..n], TiesWith(le, y)) {
        SameTiesDropLast(le, r1, r2, y);
      }
      StableSortUnique(le, r1[..n], r2[..n]);
      assert r1 == r1[..n] + [r1[n]] && r2 == r2[..n] + [r2[n]];
    }
  }

  /** A sequence is the stable sort of `s` exactly when it is sorted and keeps
      the order of `s` within every tie class. */
  lemma SortCharacterized<T(!new)>(le: (T, T) -> bool, s: seq<T>, r: seq<T>)
    requires TotalPreorder(le)
    ensures r == Sort(le, s) <==>
              Sorted(le, r) && forall y :: Filter(r, TiesWith(le, y)) == Filter(s, TiesWith(le, y))
  {
    SortSorted(le, s);
    forall y ensures Filter(Sort(le, s), TiesWith(le, y)) == Filter(s, TiesWith(le, y)) {
      SortStable(le, s, y);
    }
    if Sorted(le, r) && forall y :: Filter(r, TiesWith(le, y)) == Filter(s, TiesWith(le, y)) {
      StableSortUnique(le, r, Sort(le, s));
    }
  }

  /** Filtering keeps a sequence sorted. */
  lemma FilterSorted<T>(le: (T, T) -> bool, s: seq<T>, p: T -> bool)
    requires Sorted(le, s)
    ensures Sorted(le, Filter(s, p))
  {
    FilterAtPositions(s, p);
  }

  /** Sorting then filtering gives the same sequence as filtering then sorting. */
  lemma SortThenFilter<T(!new)>(le: (T, T) -> bool, s: seq<T>, p: T -> bool)
    requires TotalPreorder(le)
    ensures Filter(Sort(le, s), p) == Sort(le, Filter(s, p))
  {
    var r := Filter(Sort(le, s), p);
    SortSorted(le, s);
    FilterSorted(le, Sort(le, s), p);
    forall y ensures Filter(r, TiesWith(le, y)) == Filter(Filter(s, p), TiesWith(le, y)) {
      var ty := TiesWith(le, y);
      calc {
        Filter(r, ty);
        { FilterCommute(Sort(le, s), p, ty); }
        Filter(Filter(Sort(le, s), ty), p);
        { SortStable(le, s, y); }
        Filter(Filter(s, ty), p);
        { FilterCommute(s, ty, p); }
        Filter(Filter(s, p), ty);
      }
    }
    SortCharacterized(le, Filter(s, p), r);
  }

  /** Array.prototype.sort on an array: stable insertion sort in place. */
  method SortInPlace<T>(le: (T, T) -> bool, a: array<T>)
    modifies a
    ensures a[..] == Sort(le, old(a[..]))
  {
    ghost var s := a[..];
    var i := 0;
    while i < a.Length
      invariant 0 <= i <= a.Length
      invariant a[..i] == Sort(le, s[..i])
      invariant a[i..] == s[i..]
    {
      InsertNext(le, a, i);
      assert s[..i + 1][..i] == s[..i];
      i := i + 1;
    }
    assert a[..] == a[..a.Length] && s == s[..a.Length];
  }

  /** One step of SortInPlace: a[i] moves left past every element of the
      prefix a[..i] that compares greater than it. */
  method InsertNext<T>(le: (T, T) -> bool, a: array<T>, i: nat)
    requires i < a.Length
    modifies a
    ensures a[..i + 1] == Insert(le, old(a[..i]), old(a[i]))
    ensures a[i + 1..] == old(a[i + 1..])
  {
    ghost var t := a[..i];
    var x := a[i];
    var j := i;
    while j > 0 && !le(a[j - 1], x)
      invariant 0 <= j <= i
      invariant forall k :: 0 <= k < j ==> a[k] == t[k]
      invariant forall k :: j < k <= i ==> a[k] == t[k - 1]
      invariant forall k :: i < k < a.Length ==> a[k] == old(a[k])
      invariant forall k :: j <= k < i ==> !le(t[k], x)
    {
      a[j] := a[j - 1];
      j := j - 1;
    }
    a[j] := x;
    InsertSplit(le, t, j, x);
    InsertedAt(a[..i + 1], t, j, x);
    assert a[i + 1..] == old(a[i + 1..]) by {
      forall k | i < k < a.Length ensures a[k] == old(a[k]) { }
    }
  }

  /** Insert places `x` after the elements of `t` up to the last one that does
      not compare greater than `x`. */
  lemma {:induction false} InsertSplit<T>(le: (T, T) -> bool, t: seq<T>, j: nat, x: T)
    requires j <= |t| && (j == 0 || le(t[j - 1], x))
    requires forall k :: j <= k < |t| ==> !le(t[k], x)
    ensures Insert(le, t, x) == t[..j] + [x] + t[j..]
    decreases |t|
  {
    if j == |t| {
      assert t[..j] == t && t[j..] == [];
    } else {
      var init := t[..|t| - 1];
      InsertSplit(le, init, j, x);
      assert init[..j] == t[..j];
      assert init[j..] + [t[|t| - 1]] == t[j..];
    }
  }

  /** The array prefix after the shifting loop, read element by element. */
  lemma InsertedAt<T>(u: seq<T>, t: seq<T>, j: nat, x: T)
    requires |u| == |t| + 1 && j <= |t| && u[j] == x
    requires forall k :: 0 <= k < j ==> u[k] == t[k]
    requires forall k :: j < k < |u| ==> u[k] == t[k - 1]
    ensures u == t[..j] + [x] + t[j..]
  {
  }
}
