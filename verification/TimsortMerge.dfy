/** `tim_sort_merge` of src/timsort.h: both directions, in place but for a copy of the shorter run. */
module TimsortMerge {
  import opened StableSort

  /** A run on the stack of `tim_sort`. */
  datatype Run = Run(start: nat, len: nat)

  function End(r: Run): nat { r.start + r.len }

  function Cells(s: seq<Elem>, r: Run): seq<Elem>
    requires End(r) <= |s|
  {
    s[r.start..End(r)]
  }

  /** The result of merging two adjacent ranges: the shorter one decides the direction. */
  function Merged(l: seq<Elem>, r: seq<Elem>): (m: seq<Elem>)
    ensures |m| == |l| + |r|
  {
    if |l| < |r| then MergeLeft(l, r) else MergeRight(l, r)
  }

  method CopyOut(dst: array<Elem>, from: nat, n: nat) returns (storage: array<Elem>)
    requires from + n <= dst.Length
    ensures fresh(storage) && storage[..] == dst[from..from + n]
  {
    storage := new Elem[n];
    for i := 0 to n
      invariant storage[..i] == dst[from..from + i]
    {
      storage[i] := dst[from + i];
    }
  }

  /** With `t` entries out, `i` from the left run and `q` from the right one, what is left to merge. */
  ghost predicate LeftRest(l: seq<Elem>, r: seq<Elem>, i: nat, q: nat) {
    i <= |l| && q <= |r| && MergeLeft(l[i..], r[q..]) == MergeLeft(l, r)[i + q..]
  }

  lemma LeftStart(l: seq<Elem>, r: seq<Elem>)
    ensures LeftRest(l, r, 0, 0)
  {
    assert l[0..] == l && r[0..] == r && MergeLeft(l, r)[0..] == MergeLeft(l, r);
  }

  lemma LeftTakesLeft(l: seq<Elem>, r: seq<Elem>, i: nat, q: nat)
    requires LeftRest(l, r, i, q) && i < |l| && (q == |r| || Cmp(l[i], r[q]) <= 0)
    ensures LeftRest(l, r, i + 1, q) && MergeLeft(l, r)[i + q] == l[i]
  {
    var m := MergeLeft(l, r);
    assert l[i..][1..] == l[i + 1..];
    assert m[i + q..] == [l[i]] + MergeLeft(l[i + 1..], r[q..]);
    assert m[i + q..][1..] == m[i + 1 + q..];
  }

  lemma LeftTakesRight(l: seq<Elem>, r: seq<Elem>, i: nat, q: nat)
    requires LeftRest(l, r, i, q) && q < |r| && (i == |l| || Cmp(l[i], r[q]) > 0)
    ensures LeftRest(l, r, i, q + 1) && MergeLeft(l, r)[i + q] == r[q]
  {
    var m := MergeLeft(l, r);
    assert r[q..][1..] == r[q + 1..];
    assert m[i + q..] == [r[q]] + MergeLeft(l[i..], r[q + 1..]);
    assert m[i + q..][1..] == m[i + q + 1..];
  }

  /** The loop of the left merge; `m` is the merge of the saved run `l` and the run `r` still in place. */
  method LeftMerge(dst: array<Elem>, storage: array<Elem>, curr: nat, A: nat, B: nat,
                   ghost l: seq<Elem>, ghost r: seq<Elem>, ghost m: seq<Elem>)
    requires dst != storage && curr + A + B <= dst.Length && A == |l| && B == |r|
    requires m == MergeLeft(l, r) && storage[..] == l
    requires forall p :: 0 <= p < B ==> dst[curr + A + p] == r[p]
    modifies dst
    ensures forall p :: 0 <= p < dst.Length && !(curr <= p < curr + A + B) ==> dst[p] == old(dst[p])
    ensures forall p :: curr <= p < curr + A + B ==> dst[p] == m[p - curr]
  {
    var i, j, k := 0, curr + A, curr;
    LeftStart(l, r);
    hide *;
    while k < curr + A + B
      invariant i <= A && curr + A <= j <= curr + A + B && k + A == i + j
      invariant LeftRest(l, r, i, j - curr - A)
      invariant forall p :: 0 <= p < dst.Length && !(curr <= p < k) ==> dst[p] == old(dst[p])
      invariant forall p :: curr <= p < k ==> dst[p] == m[p - curr]
    {
      assert i < A ==> storage[..][i] == l[i];
      assert j < curr + A + B ==> dst[j] == r[j - curr - A];
      if i < A && (j == curr + A + B || Cmp(storage[i], dst[j]) <= 0) {
        LeftTakesLeft(l, r, i, j - curr - A);
        dst[k] := storage[i];
        i := i + 1;
      } else {
        LeftTakesRight(l, r, i, j - curr - A);
        dst[k] := dst[j];
        j := j + 1;
      }
      k := k + 1;
    }
  }

  /** The same from the top: `i` and `q` entries of the two runs are still to be merged. */
  ghost predicate RightRest(l: seq<Elem>, r: seq<Elem>, i: nat, q: nat) {
    i <= |l| && q <= |r| && MergeRight(l[..i], r[..q]) == MergeRight(l, r)[..i + q]
  }

  lemma RightStart(l: seq<Elem>, r: seq<Elem>)
    ensures RightRest(l, r, |l|, |r|)
  {
    assert l[..|l|] == l && r[..|r|] == r && MergeRight(l, r)[..|l| + |r|] == MergeRight(l, r);
  }

  lemma PrefixSnoc(m: seq<Elem>, n: nat, a: seq<Elem>, x: Elem)
    requires n < |m| && |a| == n && m[..n + 1] == a + [x]
    ensures m[..n] == a && m[n] == x
  {
    assert m[..n + 1][..n] == a && m[..n + 1][n] == x;
  }

  lemma RightSnoc(l: seq<Elem>, r: seq<Elem>, x: Elem)
    ensures r == [] || Cmp(x, r[|r| - 1]) > 0 ==> MergeRight(l + [x], r) == MergeRight(l, r) + [x]
    ensures l == [] || Cmp(l[|l| - 1], x) <= 0 ==> MergeRight(l, r + [x]) == MergeRight(l, r) + [x]
  {
    hide Cmp;
    assert (l + [x])[..|l|] == l && (r + [x])[..|r|] == r;
  }

  lemma RightTakesLeft(l: seq<Elem>, r: seq<Elem>, i: nat, q: nat)
    requires RightRest(l, r, i + 1, q) && i < |l| && (q == 0 || Cmp(l[i], r[q - 1]) > 0)
    ensures RightRest(l, r, i, q) && MergeRight(l, r)[i + q] == l[i]
  {
    hide Cmp, MergeRight;
    RightSnoc(l[..i], r[..q], l[i]);
    assert l[..i + 1] == l[..i] + [l[i]];
    PrefixSnoc(MergeRight(l, r), i + q, MergeRight(l[..i], r[..q]), l[i]);
  }

  lemma RightTakesRight(l: seq<Elem>, r: seq<Elem>, i: nat, q: nat)
    requires RightRest(l, r, i, q + 1) && q < |r| && (i == 0 || Cmp(l[i - 1], r[q]) <= 0)
    ensures RightRest(l, r, i, q) && MergeRight(l, r)[i + q] == r[q]
  {
    hide Cmp, MergeRight;
    RightSnoc(l[..i], r[..q], r[q]);
    assert r[..q + 1] == r[..q] + [r[q]];
    PrefixSnoc(MergeRight(l, r), i + q, MergeRight(l[..i], r[..q]), r[q]);
  }

  /** The loop of the right merge; here the right run is the saved one. */
  method RightMerge(dst: array<Elem>, storage: array<Elem>, curr: nat, A: nat, B: nat,
                    ghost l: seq<Elem>, ghost r: seq<Elem>, ghost m: seq<Elem>)
    requires dst != storage && curr + A + B <= dst.Length && A == |l| && B == |r|
    requires m == MergeRight(l, r) && storage[..] == r
    requires forall p :: 0 <= p < A ==> dst[curr + p] == l[p]
    modifies dst
    ensures forall p :: 0 <= p < dst.Length && !(curr <= p < curr + A + B) ==> dst[p] == old(dst[p])
    ensures forall p :: curr <= p < curr + A + B ==> dst[p] == m[p - curr]
  {
    var i: int := B - 1;
    var j: int := curr + A - 1;
    var k: int := curr + A + B - 1;
    RightStart(l, r);
    hide *;
    while k >= curr
      invariant -1 <= i < B && curr - 1 <= j < curr + A && k == i + j + 1
      invariant RightRest(l, r, j + 1 - curr, i + 1)
      invariant forall p :: 0 <= p < dst.Length && !(k < p < curr + A + B) ==> dst[p] == old(dst[p])
      invariant forall p :: k < p < curr + A + B ==> dst[p] == m[p - curr]
      decreases k
    {
      assert i >= 0 ==> storage[..][i] == r[i];
      assert j >= curr ==> dst[j] == l[j - curr];
      if j >= curr && (i < 0 || Cmp(dst[j], storage[i]) > 0) {
        RightTakesLeft(l, r, j - curr, i + 1);
        dst[k] := dst[j];
        j := j - 1;
      } else {
        RightTakesRight(l, r, j + 1 - curr, i);
        dst[k] := storage[i];
        i := i - 1;
      }
      k := k - 1;
    }
  }

  lemma RangeIs(d: seq<Elem>, from: nat, m: seq<Elem>)
    requires from + |m| <= |d| && forall p :: from <= p < from + |m| ==> d[p] == m[p - from]
    ensures d[from..from + |m|] == m
  {
  }

  /** `tim_sort_merge` on the runs at `i` and `i + 1` of the stack. */
  method MergeRuns(dst: array<Elem>, runs: seq<Run>, i: nat)
    requires i + 1 < |runs| && End(runs[i]) == runs[i + 1].start && End(runs[i + 1]) <= dst.Length
    modifies dst
    ensures forall p :: 0 <= p < dst.Length && !(runs[i].start <= p < End(runs[i + 1])) ==> dst[p] == old(dst[p])
    ensures dst[runs[i].start..End(runs[i + 1])]
         == Merged(old(Cells(dst[..], runs[i])), old(Cells(dst[..], runs[i + 1])))
  {
    var curr, A, B := runs[i].start, runs[i].len, runs[i + 1].len;
    ghost var l, r := Cells(dst[..], runs[i]), Cells(dst[..], runs[i + 1]);
    hide MergeLeft, MergeRight;
    ghost var m := Merged(l, r);
    if A < B {
      var storage := CopyOut(dst, curr, A);
      LeftMerge(dst, storage, curr, A, B, l, r, m);
    } else {
      var storage := CopyOut(dst, curr + A, B);
      RightMerge(dst, storage, curr, A, B, l, r, m);
    }
    RangeIs(dst[..], curr, m);
  }
}
