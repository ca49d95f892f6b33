/** Elements, order and stable merging (the comparison and the two merge directions of src/timsort.h). */
module StableSort {

  /** An element compares by `key`; `tag` tells equal elements apart, which makes stability visible. */
  datatype Elem = Elem(key: int, tag: int)

  /** `sort_cmp`. */
  function Cmp(x: Elem, y: Elem): int {
    if x.key < y.key then -1 else if x.key == y.key then 0 else 1
  }

  predicate Sorted(s: seq<Elem>) {
    forall i, j :: 0 <= i <= j < |s| ==> s[i].key <= s[j].key
  }

  /** The elements with key `k`, in order of appearance. */
  function Filter(s: seq<Elem>, k: int): seq<Elem> {
    if s == [] then [] else Filter(s[..|s|-1], k) + Pick(s[|s|-1], k)
  }

  /** `t` arranges the elements of `s` without reordering equal ones. */
  ghost predicate Stable(s: seq<Elem>, t: seq<Elem>) {
    |s| == |t| && forall k :: Filter(t, k) == Filter(s, k)
  }

  /** `t` is the stable sort of `s`. */
  ghost predicate IsStableSort(s: seq<Elem>, t: seq<Elem>) {
    Sorted(t) && Stable(s, t)
  }

  function KeySum(s: seq<Elem>): int {
    if s == [] then 0 else KeySum(s[..|s|-1]) + s[|s|-1].key
  }

  lemma {:induction false} FilterConcat(a: seq<Elem>, b: seq<Elem>, k: int)
    ensures Filter(a + b, k) == Filter(a, k) + Filter(b, k)
  {
    if b == [] {
      assert a + b == a;
    } else {
      var n := |b| - 1;
      assert (a + b)[..|a + b| - 1] == a + b[..n];
      assert (a + b)[|a + b| - 1] == b[n];
      FilterConcat(a, b[..n], k);
    }
  }

  lemma {:induction false} KeySumConcat(a: seq<Elem>, b: seq<Elem>)
    ensures KeySum(a + b) == KeySum(a) + KeySum(b)
  {
    if b == [] {
      assert a + b == a;
    } else {
      var n := |b| - 1;
      assert (a + b)[..|a + b| - 1] == a + b[..n];
      assert (a + b)[|a + b| - 1] == b[n];
      KeySumConcat(a, b[..n]);
    }
  }

  lemma StableConcat(a: seq<Elem>, a': seq<Elem>, b: seq<Elem>, b': seq<Elem>)
    requires Stable(a, a') && Stable(b, b')
    ensures Stable(a + b, a' + b')
  {
    forall k ensures Filter(a' + b', k) == Filter(a + b, k) {
      FilterConcat(a, b, k);
      FilterConcat(a', b', k);
    }
  }

  lemma StableTransitive(a: seq<Elem>, b: seq<Elem>, c: seq<Elem>)
    requires Stable(a, b) && Stable(b, c)
    ensures Stable(a, c)
  {
    forall k ensures Filter(c, k) == Filter(a, k) {
      assert Filter(b, k) == Filter(a, k);
    }
  }

  // ------------------------------------------------------------ merging

  /** The left merge: take from the left run unless the right one is smaller. */
  function MergeLeft(l: seq<Elem>, r: seq<Elem>): (m: seq<Elem>)
    ensures |m| == |l| + |r|
  {
    if l == [] then r
    else if r == [] then l
    else if Cmp(l[0], r[0]) <= 0 then [l[0]] + MergeLeft(l[1..], r)
    else [r[0]] + MergeLeft(l, r[1..])
  }

  /** The right merge: from the top, take from the right run unless the left one is bigger. */
  function MergeRight(l: seq<Elem>, r: seq<Elem>): (m: seq<Elem>)
    ensures |m| == |l| + |r|
  {
    if l == [] then r
    else if r == [] then l
    else if Cmp(l[|l|-1], r[|r|-1]) > 0 then MergeRight(l[..|l|-1], r) + [l[|l|-1]]
    else MergeRight(l, r[..|r|-1]) + [r[|r|-1]]
  }

  lemma One(x: Elem, k: int)
    ensures Filter([x], k) == Pick(x, k) && KeySum([x]) == x.key
  {
    assert [x][..0] == [];
  }

  /** A merge neither loses nor invents keys, whether or not its runs are sorted. */
  lemma {:induction false} MergeLeftSum(l: seq<Elem>, r: seq<Elem>)
    ensures KeySum(MergeLeft(l, r)) == KeySum(l) + KeySum(r)
    decreases |l| + |r|
  {
    if l != [] && r != [] {
      assert l == [l[0]] + l[1..] && r == [r[0]] + r[1..];
      if Cmp(l[0], r[0]) <= 0 {
        MergeLeftSum(l[1..], r);
        KeySumConcat([l[0]], l[1..]);
        KeySumConcat([l[0]], MergeLeft(l[1..], r));
      } else {
        MergeLeftSum(l, r[1..]);
        KeySumConcat([r[0]], r[1..]);
        KeySumConcat([r[0]], MergeLeft(l, r[1..]));
      }
    }
  }

  lemma {:induction false} MergeRightSum(l: seq<Elem>, r: seq<Elem>)
    ensures KeySum(MergeRight(l, r)) == KeySum(l) + KeySum(r)
    decreases |l| + |r|
  {
    if l != [] && r != [] {
      if Cmp(l[|l| - 1], r[|r| - 1]) > 0 {
        MergeRightSum(l[..|l| - 1], r);
      } else {
        MergeRightSum(l, r[..|r| - 1]);
      }
    }
  }

  /** All keys are at least, at most `k`. */
  predicate AtLeast(s: seq<Elem>, k: int) {
    forall i :: 0 <= i < |s| ==> k <= s[i].key
  }

  predicate AtMost(s: seq<Elem>, k: int) {
    forall i :: 0 <= i < |s| ==> s[i].key <= k
  }

  lemma {:induction false} FilterNone(s: seq<Elem>, k: int)
    requires forall i :: 0 <= i < |s| ==> s[i].key != k
    ensures Filter(s, k) == []
  {
    if s != [] { FilterNone(s[..|s| - 1], k); }
  }

  lemma {:induction false} MergeLeftSorted(l: seq<Elem>, r: seq<Elem>, lo: int)
    requires Sorted(l) && Sorted(r) && AtLeast(l, lo) && AtLeast(r, lo)
    ensures Sorted(MergeLeft(l, r)) && AtLeast(MergeLeft(l, r), lo)
    decreases |l| + |r|
  {
    if l != [] && r != [] {
      if Cmp(l[0], r[0]) <= 0 {
        MergeLeftSorted(l[1..], r, l[0].key);
        SortedCons(l[0], MergeLeft(l[1..], r));
      } else {
        MergeLeftSorted(l, r[1..], r[0].key);
        SortedCons(r[0], MergeLeft(l, r[1..]));
      }
    }
  }

  lemma SortedCons(x: Elem, s: seq<Elem>)
    requires Sorted(s) && AtLeast(s, x.key)
    ensures Sorted([x] + s) && AtLeast([x] + s, x.key)
  {
    forall i, j | 0 <= i <= j < |[x] + s| ensures ([x] + s)[i].key <= ([x] + s)[j].key {
      if i > 0 { assert s[i - 1].key <= s[j - 1].key; }
    }
  }

  lemma SortedSnoc(s: seq<Elem>, x: Elem)
    requires Sorted(s) && AtMost(s, x.key)
    ensures Sorted(s + [x]) && AtMost(s + [x], x.key)
  {
  }

  lemma {:induction false} MergeRightSorted(l: seq<Elem>, r: seq<Elem>, hi: int)
    requires Sorted(l) && Sorted(r) && AtMost(l, hi) && AtMost(r, hi)
    ensures Sorted(MergeRight(l, r)) && AtMost(MergeRight(l, r), hi)
    decreases |l| + |r|
  {
    if l != [] && r != [] {
      var x, y := l[|l| - 1], r[|r| - 1];
      if Cmp(x, y) > 0 {
        MergeRightSorted(l[..|l| - 1], r, x.key);
        SortedSnoc(MergeRight(l[..|l| - 1], r), x);
      } else {
        MergeRightSorted(l, r[..|r| - 1], y.key);
        SortedSnoc(MergeRight(l, r[..|r| - 1]), y);
      }
    }
  }

  function Pick(x: Elem, k: int): seq<Elem> {
    if x.key == k then [x] else []
  }

  lemma Regroup(a: seq<Elem>, b: seq<Elem>, c: seq<Elem>)
    ensures a + b + c == a + (b + c)
    ensures b == [] || c == [] ==> a + b + c == a + c + b
    ensures a == [] || b == [] ==> a + b + c == b + a + c
  {
  }

  lemma FilterCons(x: Elem, s: seq<Elem>, k: int)
    ensures Filter([x] + s, k) == Pick(x, k) + Filter(s, k)
  {
    FilterConcat([x], s, k);
    One(x, k);
  }

  /** On sorted runs equal elements keep their order: those of the left run come first. */
  lemma {:induction false} MergeLeftStable(l: seq<Elem>, r: seq<Elem>, k: int)
    requires Sorted(l) && Sorted(r)
    ensures Filter(MergeLeft(l, r), k) == Filter(l, k) + Filter(r, k)
    decreases |l| + |r|
  {
    if l != [] && r != [] {
      var x, l', y, r' := l[0], l[1..], r[0], r[1..];
      assert l == [x] + l' && r == [y] + r';
      if Cmp(x, y) <= 0 {
        MergeLeftStable(l', r, k);
        FilterCons(x, MergeLeft(l', r), k);
        FilterCons(x, l', k);
        Regroup(Pick(x, k), Filter(l', k), Filter(r, k));
      } else {
        MergeLeftStable(l, r', k);
        FilterCons(y, MergeLeft(l, r'), k);
        FilterCons(y, r', k);
        if y.key == k { FilterNone(l, k); }
        Regroup(Pick(y, k), Filter(l, k), Filter(r', k));
        Regroup(Filter(l, k), Pick(y, k), Filter(r', k));
      }
    }
  }

  lemma {:induction false} MergeRightStable(l: seq<Elem>, r: seq<Elem>, k: int)
    requires Sorted(l) && Sorted(r)
    ensures Filter(MergeRight(l, r), k) == Filter(l, k) + Filter(r, k)
    decreases |l| + |r|
  {
    if l != [] && r != [] {
      var l', x, r', y := l[..|l| - 1], l[|l| - 1], r[..|r| - 1], r[|r| - 1];
      if Cmp(x, y) > 0 {
        MergeRightStable(l', r, k);
        FilterSnoc(MergeRight(l', r), x, k);
        if x.key == k { FilterNone(r, k); }
        Regroup(Filter(l', k), Filter(r, k), Pick(x, k));
      } else {
        MergeRightStable(l, r', k);
        FilterSnoc(MergeRight(l, r'), y, k);
        Regroup(Filter(l, k), Filter(r', k), Pick(y, k));
      }
    }
  }

  lemma FilterSnoc(s: seq<Elem>, x: Elem, k: int)
    ensures Filter(s + [x], k) == Filter(s, k) + Pick(x, k)
  {
    assert (s + [x])[..|s|] == s;
  }

  /** Merging two sorted neighbours, in either direction, stably sorts their concatenation. */
  lemma MergesAreStable(l: seq<Elem>, r: seq<Elem>)
    requires Sorted(l) && Sorted(r)
    ensures IsStableSort(l + r, MergeLeft(l, r)) && IsStableSort(l + r, MergeRight(l, r))
  {
    var lo := if l == [] then (if r == [] then 0 else r[0].key)
              else if r == [] || l[0].key < r[0].key then l[0].key else r[0].key;
    MergeLeftSorted(l, r, lo);
    var hi := if l == [] then (if r == [] then 0 else r[|r| - 1].key)
              else if r == [] || l[|l| - 1].key > r[|r| - 1].key then l[|l| - 1].key else r[|r| - 1].key;
    MergeRightSorted(l, r, hi);
    forall k ensures Filter(MergeLeft(l, r), k) == Filter(l + r, k) && Filter(MergeRight(l, r), k) == Filter(l + r, k) {
      MergeLeftStable(l, r, k);
      MergeRightStable(l, r, k);
      FilterConcat(l, r, k);
    }
  }

  // ------------------------------------------------------------ what stability implies

  lemma {:induction false} FilterCounts(s: seq<Elem>, x: Elem)
    ensures multiset(s)[x] == multiset(Filter(s, x.key))[x]
  {
    if s != [] {
      var n := |s| - 1;
      FilterCounts(s[..n], x);
      assert s == s[..n] + [s[n]];
    }
  }

  /** Stability includes being a permutation. */
  lemma StableIsPermutation(s: seq<Elem>, t: seq<Elem>)
    requires Stable(s, t)
    ensures multiset(t) == multiset(s)
  {
    forall x: Elem ensures multiset(t)[x] == multiset(s)[x] {
      FilterCounts(s, x);
      FilterCounts(t, x);
    }
  }

  lemma {:induction false} PermutationSum(s: seq<Elem>, t: seq<Elem>)
    requires multiset(s) == multiset(t)
    ensures KeySum(s) == KeySum(t)
    decreases |s|
  {
    if s == [] {
      assert |t| == |multiset(t)| == 0;
    } else {
      var n := |s| - 1;
      var x := s[n];
      assert x in multiset(s);
      var i :| 0 <= i < |t| && t[i] == x;
      var u := t[..i] + t[i + 1..];
      assert t == t[..i] + [x] + t[i + 1..];
      assert s == s[..n] + [x];
      assert multiset(t) == multiset(u) + multiset{x};
      assert multiset(s) == multiset(s[..n]) + multiset{x};
      assert multiset(u) == multiset(t) - multiset{x};
      PermutationSum(s[..n], u);
      KeySumConcat(t[..i], [x]);
      KeySumConcat(t[..i] + [x], t[i + 1..]);
      KeySumConcat(t[..i], t[i + 1..]);
      One(x, 0);
    }
  }
}
