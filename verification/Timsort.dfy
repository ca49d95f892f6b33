/** `tim_sort` of src/timsort.h, from the run counting to the last merge. */
module Timsort {
  import opened StableSort
  import opened TimsortSteps
  import opened TimsortMerge
  import opened Powers
  import RunStack

  // ------------------------------------------------------------ the minimum run length

  /** The position of the top bit, counted from one: `64 - CLZ(n)`. */
  function BitLength(n: nat): nat {
    if n == 0 then 0 else 1 + BitLength(n / 2)
  }

  function Shift(size: nat): nat {
    if BitLength(size) > 6 then BitLength(size) - 6 else 0
  }

  /** `compute_minrun`: the top six bits, plus one when a lower bit is set. */
  function MinRun(size: nat): nat {
    var p := Pow2(Shift(size));
    if size % p != 0 then size / p + 1 else size / p
  }

  lemma {:induction false} BitLengthBounds(n: nat)
    requires n > 0
    ensures BitLength(n) > 0 && Pow2(BitLength(n) - 1) <= n < Pow2(BitLength(n))
  {
    if n > 1 {
      BitLengthBounds(n / 2);
    }
  }

  lemma DivRange(n: nat, p: nat)
    requires p > 0 && 32 * p <= n < 64 * p
    ensures 32 <= n / p < 64
  {
  }

  /** An array of at least 64 entries is cut into runs of 32 to 64 entries. */
  lemma MinRunRange(size: nat)
    requires size >= 64
    ensures 32 <= MinRun(size) <= 64
  {
    BitLengthBounds(size);
    var k := BitLength(size);
    assert Pow2(6) == 64;
    if k <= 6 {
      Pow2Monotone(k, 6);
    }
    Pow2Sum(k - 6, 6);
    Pow2Sum(k - 6, 5);
    assert Pow2(5) == 32;
    DivRange(size, Pow2(k - 6));
  }

  lemma QuotientUp(size: nat, p: nat)
    requires p > 0
    ensures var r := if size % p != 0 then size / p + 1 else size / p;
      size <= r * p < size + p
  {
  }

  /** It is `size / 2^k` rounded up, for the least `k` that brings the size below 64. */
  lemma MinRunIs(size: nat) returns (k: nat)
    ensures size < 64 * Pow2(k) && (k > 0 ==> 64 * Pow2(k - 1) <= size)
    ensures size <= MinRun(size) * Pow2(k) < size + Pow2(k)
  {
    k := Shift(size);
    QuotientUp(size, Pow2(k));
    var n := BitLength(size);
    if n > 0 { BitLengthBounds(size); }
    assert Pow2(6) == 64 && Pow2(0) == 1;
    if n > 6 {
      Pow2Sum(6, n - 6);
      Pow2Sum(6, n - 7);
    } else {
      Pow2Monotone(n, 6);
    }
  }

  // ------------------------------------------------------------ which inputs survive

  /** Where the run after the one at `curr` starts. */
  function NextStart(s: seq<Elem>, minrun: nat, curr: nat): (next: nat)
    requires curr < |s|
    ensures curr < next <= |s|
  {
    var len := RunLength(s, curr);
    var run := if minrun > |s| - curr then |s| - curr else minrun;
    curr + if run > len then run else len
  }

  /** No run from `curr` on starts with a strict descent. */
  predicate AllAscend(s: seq<Elem>, minrun: nat, curr: nat)
    requires curr <= |s|
    decreases |s| - curr
  {
    curr == |s| || (!Descends(s, curr) && AllAscend(s, minrun, NextStart(s, minrun, curr)))
  }

  /** The inputs no element of which is lost: short arrays, and those whose runs all ascend. */
  predicate Ascends(s: seq<Elem>) {
    |s| < 64 || AllAscend(s, MinRun(|s|), 0)
  }

  // ------------------------------------------------------------ the run stack

  /** The runs on the stack cover `[0, curr)` from left to right. */
  predicate Tiles(runs: seq<Run>, curr: nat) {
    && (forall i :: 0 <= i < |runs| ==> runs[i].len > 0 && (i > 0 ==> runs[i].start == End(runs[i - 1])))
    && (if runs == [] then curr == 0 else runs[0].start == 0 && curr == End(runs[|runs| - 1]))
  }

  lemma {:induction false} InOrder(runs: seq<Run>, curr: nat, i: nat, j: nat)
    requires Tiles(runs, curr) && i <= j < |runs|
    ensures i < j ==> End(runs[i]) <= runs[j].start
    ensures End(runs[i]) <= End(runs[j]) <= curr
    decreases |runs| - i + |runs| - j
  {
    if i < j {
      InOrder(runs, curr, i + 1, j);
    } else if j + 1 < |runs| {
      InOrder(runs, curr, j + 1, j + 1);
    }
  }

  ghost predicate RunsSorted(a: seq<Elem>, runs: seq<Run>) {
    forall i :: 0 <= i < |runs| ==> End(runs[i]) <= |a| && Sorted(Cells(a, runs[i]))
  }

  /**
   * `a` is what became of `s` once the runs up to `curr` are on the stack: stably rearranged into sorted
   * runs, or, after a loss, with a smaller sum of keys.
   */
  ghost predicate Arranged(s: seq<Elem>, a: seq<Elem>, runs: seq<Run>, curr: nat, lost: bool)
    requires curr <= |s| == |a|
  {
    && Tiles(runs, curr)
    && a[curr..] == s[curr..]
    && if lost then KeySum(a[..curr]) < KeySum(s[..curr])
       else Stable(s[..curr], a[..curr]) && RunsSorted(a, runs)
  }

  function Lens(runs: seq<Run>): (st: seq<nat>)
    ensures |st| == |runs|
  {
    seq(|runs|, i requires 0 <= i < |runs| => runs[i].len)
  }

  // ------------------------------------------------------------ merging two neighbours

  function MergeAt(runs: seq<Run>, i: nat): (r: seq<Run>)
    requires i + 1 < |runs|
    ensures |r| == |runs| - 1
  {
    runs[..i] + [Run(runs[i].start, runs[i].len + runs[i + 1].len)] + runs[i + 2..]
  }

  lemma MergeAtEntry(runs: seq<Run>, i: nat, j: nat)
    requires i + 1 < |runs| && j + 1 < |runs|
    ensures MergeAt(runs, i)[j] == if j < i then runs[j]
                                   else if j == i then Run(runs[i].start, runs[i].len + runs[i + 1].len)
                                   else runs[j + 1]
  {
  }

  lemma MergeAtTiles(runs: seq<Run>, i: nat, curr: nat)
    requires Tiles(runs, curr) && i + 1 < |runs|
    ensures Tiles(MergeAt(runs, i), curr)
  {
    var merged := MergeAt(runs, i);
    forall j | 0 <= j < |merged|
      ensures merged[j].len > 0 && (j > 0 ==> merged[j].start == End(merged[j - 1]))
    {
      MergeAtEntry(runs, i, j);
      if j > 0 { MergeAtEntry(runs, i, j - 1); }
    }
    MergeAtEntry(runs, i, 0);
    MergeAtEntry(runs, i, |runs| - 2);
  }

  /** `a'` is `a` with the runs at `i` and `i + 1` merged. */
  ghost predicate MergedInPlace(a: seq<Elem>, a': seq<Elem>, runs: seq<Run>, i: nat) {
    && i + 1 < |runs| && End(runs[i]) == runs[i + 1].start && End(runs[i + 1]) <= |a| == |a'|
    && (forall p :: 0 <= p < |a| && !(runs[i].start <= p < End(runs[i + 1])) ==> a'[p] == a[p])
    && a'[runs[i].start..End(runs[i + 1])] == Merged(Cells(a, runs[i]), Cells(a, runs[i + 1]))
  }

  lemma SplitAround(a: seq<Elem>, lo: nat, mid: nat, hi: nat, curr: nat)
    requires lo <= mid <= hi <= curr <= |a|
    ensures a[..curr] == a[..lo] + (a[lo..mid] + a[mid..hi]) + a[hi..curr]
    ensures a[..curr] == a[..lo] + a[lo..hi] + a[hi..curr]
  {
  }

  lemma SameEnds(a: seq<Elem>, a': seq<Elem>, runs: seq<Run>, i: nat, curr: nat)
    requires MergedInPlace(a, a', runs, i) && End(runs[i + 1]) <= curr <= |a|
    ensures a'[..runs[i].start] == a[..runs[i].start]
    ensures a'[End(runs[i + 1])..curr] == a[End(runs[i + 1])..curr] && a'[curr..] == a[curr..]
  {
    hide Merged, Cells;
  }

  lemma MergedSum(l: seq<Elem>, r: seq<Elem>)
    ensures KeySum(Merged(l, r)) == KeySum(l + r)
  {
    KeySumConcat(l, r);
    MergeLeftSum(l, r);
    MergeRightSum(l, r);
  }

  lemma MergedStable(l: seq<Elem>, r: seq<Elem>)
    requires Sorted(l) && Sorted(r)
    ensures Sorted(Merged(l, r)) && Stable(l + r, Merged(l, r))
  {
    MergesAreStable(l, r);
  }

  lemma MergeKeepsSum(a: seq<Elem>, a': seq<Elem>, runs: seq<Run>, i: nat, curr: nat)
    requires MergedInPlace(a, a', runs, i) && End(runs[i + 1]) <= curr <= |a|
    ensures KeySum(a'[..curr]) == KeySum(a[..curr])
  {
    var lo, mid, hi := runs[i].start, End(runs[i]), End(runs[i + 1]);
    hide Merged;
    SameEnds(a, a', runs, i, curr);
    SplitAround(a, lo, mid, hi, curr);
    SplitAround(a', lo, mid, hi, curr);
    MergedSum(a[lo..mid], a[mid..hi]);
    KeySumConcat(a[..lo] + (a[lo..mid] + a[mid..hi]), a[hi..curr]);
    KeySumConcat(a[..lo], a[lo..mid] + a[mid..hi]);
    KeySumConcat(a[..lo] + a'[lo..hi], a[hi..curr]);
    KeySumConcat(a[..lo], a'[lo..hi]);
  }

  lemma MergeIsStable(a: seq<Elem>, a': seq<Elem>, runs: seq<Run>, i: nat, curr: nat)
    requires MergedInPlace(a, a', runs, i) && End(runs[i + 1]) <= curr <= |a|
    requires Sorted(Cells(a, runs[i])) && Sorted(Cells(a, runs[i + 1]))
    ensures Stable(a[..curr], a'[..curr])
    ensures Sorted(a'[runs[i].start..End(runs[i + 1])])
  {
    var lo, mid, hi := runs[i].start, End(runs[i]), End(runs[i + 1]);
    hide Merged;
    SameEnds(a, a', runs, i, curr);
    SplitAround(a, lo, mid, hi, curr);
    SplitAround(a', lo, mid, hi, curr);
    MergedStable(a[lo..mid], a[mid..hi]);
    StableConcat(a[..lo], a[..lo], a[lo..mid] + a[mid..hi], a'[lo..hi]);
    StableConcat(a[..lo] + (a[lo..mid] + a[mid..hi]), a[..lo] + a'[lo..hi], a[hi..curr], a[hi..curr]);
  }

  /** A run other than the two merged ones keeps its cells. */
  lemma CellsKept(a: seq<Elem>, a': seq<Elem>, runs: seq<Run>, i: nat, curr: nat, k: nat)
    requires MergedInPlace(a, a', runs, i) && Tiles(runs, curr) && curr <= |a| && k < |runs| && k != i && k != i + 1
    ensures End(runs[k]) <= |a| && Cells(a', runs[k]) == Cells(a, runs[k])
  {
    if k < i { InOrder(runs, curr, k, i); } else { InOrder(runs, curr, i + 1, k); }
    hide Merged, Tiles;
  }

  lemma MergeRunsSorted(a: seq<Elem>, a': seq<Elem>, runs: seq<Run>, i: nat, curr: nat)
    requires MergedInPlace(a, a', runs, i) && Tiles(runs, curr) && RunsSorted(a, runs) && curr <= |a|
    requires Sorted(a'[runs[i].start..End(runs[i + 1])])
    ensures RunsSorted(a', MergeAt(runs, i))
  {
    var merged := MergeAt(runs, i);
    hide Sorted, Merged, Tiles, MergeAt;
    forall j | 0 <= j < |merged| ensures End(merged[j]) <= |a'| && Sorted(Cells(a', merged[j])) {
      MergeAtEntry(runs, i, j);
      if j != i {
        CellsKept(a, a', runs, i, curr, if j < i then j else j + 1);
      }
    }
  }

  lemma MergeArranged(s: seq<Elem>, a: seq<Elem>, a': seq<Elem>, runs: seq<Run>, i: nat, curr: nat, lost: bool)
    requires curr <= |s| == |a| && Arranged(s, a, runs, curr, lost) && MergedInPlace(a, a', runs, i)
    ensures Arranged(s, a', MergeAt(runs, i), curr, lost)
  {
    InOrder(runs, curr, i + 1, i + 1);
    MergeAtTiles(runs, i, curr);
    SameEnds(a, a', runs, i, curr);
    if lost {
      MergeKeepsSum(a, a', runs, i, curr);
    } else {
      MergeIsStable(a, a', runs, i, curr);
      StableTransitive(s[..curr], a[..curr], a'[..curr]);
      MergeRunsSorted(a, a', runs, i, curr);
    }
  }

  /** Merges the runs at `i` and `i + 1` and updates the stack. */
  method MergeStep(dst: array<Elem>, runs: seq<Run>, i: nat, curr: nat, ghost s: seq<Elem>, ghost lost: bool)
    returns (merged: seq<Run>)
    requires curr <= |s| == dst.Length && i + 1 < |runs| && Arranged(s, dst[..], runs, curr, lost)
    modifies dst
    ensures merged == MergeAt(runs, i) && Arranged(s, dst[..], merged, curr, lost)
  {
    ghost var before := dst[..];
    InOrder(runs, curr, i + 1, i + 1);
    MergeRuns(dst, runs, i);
    merged := MergeAt(runs, i);
    MergeArranged(s, before, dst[..], runs, i, curr, lost);
  }

  // ------------------------------------------------------------ collapsing

  lemma LensMerged(runs: seq<Run>, i: nat)
    requires i + 1 < |runs| && i + 3 >= |runs|
    ensures i + 2 == |runs| >= 3 ==> Lens(MergeAt(runs, i)) == RunStack.MergeTop(Lens(runs))
    ensures i + 3 == |runs| ==> Lens(MergeAt(runs, i)) == RunStack.MergeSecond(Lens(runs))
    ensures |runs| == 2 ==> Lens(MergeAt(runs, i)) == [runs[0].len + runs[1].len]
  {
  }

  /** Where the loop of `tim_sort_collapse` merges next: at the second or third run from the top, if at all. */
  predicate MergesAt(runs: seq<Run>, size: nat, i: nat) {
    var n := |runs|;
    if n < 2 then false
    else if n == 2 then i == 0 && (runs[0].len + runs[1].len == size || runs[0].len <= runs[1].len)
    else
      var A, B, C := runs[n - 3].len, runs[n - 2].len, runs[n - 1].len;
      if A <= B + C && A < C then i == n - 3 else i == n - 2 && (A <= B + C || B <= C)
  }

  lemma CollapseMerges(runs: seq<Run>, size: nat, i: nat)
    requires MergesAt(runs, size, i)
    ensures i + 1 < |runs|
    ensures RunStack.Collapsed(Lens(MergeAt(runs, i)), size) == RunStack.Collapsed(Lens(runs), size) || |runs| == 2
    ensures |runs| == 2 ==> Lens(MergeAt(runs, i)) == RunStack.Collapsed(Lens(runs), size)
  {
    LensMerged(runs, i);
  }

  lemma CollapseStops(runs: seq<Run>, size: nat)
    requires |runs| < 2 || !(MergesAt(runs, size, |runs| - 2) || (|runs| > 2 && MergesAt(runs, size, |runs| - 3)))
    ensures RunStack.Collapsed(Lens(runs), size) == Lens(runs)
  {
  }

  /** `tim_sort_collapse`. */
  method Collapse(dst: array<Elem>, stack: seq<Run>, curr: nat, ghost s: seq<Elem>, ghost lost: bool)
    returns (runs: seq<Run>)
    requires curr <= |s| == dst.Length && Arranged(s, dst[..], stack, curr, lost)
    modifies dst
    ensures Arranged(s, dst[..], runs, curr, lost)
    ensures Lens(runs) == RunStack.Collapsed(Lens(stack), dst.Length)
  {
    hide Arranged, Lens, MergeAt, RunStack.Collapsed;
    runs := stack;
    while |runs| > 1
      invariant Arranged(s, dst[..], runs, curr, lost)
      invariant RunStack.Collapsed(Lens(runs), dst.Length) == RunStack.Collapsed(Lens(stack), dst.Length)
      decreases |runs|
    {
      var n := |runs|;
      if n == 2 {
        if runs[0].len + runs[1].len == dst.Length || runs[0].len <= runs[1].len {
          CollapseMerges(runs, dst.Length, 0);
          runs := MergeStep(dst, runs, 0, curr, s, lost);
          return;
        }
        break;
      }
      var A, B, C := runs[n - 3].len, runs[n - 2].len, runs[n - 1].len;
      if A <= B + C && A < C {
        CollapseMerges(runs, dst.Length, n - 3);
        runs := MergeStep(dst, runs, n - 3, curr, s, lost);
      } else if A <= B + C || B <= C {
        CollapseMerges(runs, dst.Length, n - 2);
        runs := MergeStep(dst, runs, n - 2, curr, s, lost);
      } else {
        break;
      }
    }
    CollapseStops(runs, dst.Length);
  }

  /** The last merges, from the top of the stack down, once everything is on it. */
  method FinishUp(dst: array<Elem>, stack: seq<Run>, ghost s: seq<Elem>, ghost lost: bool)
    requires 0 < |s| == dst.Length && Arranged(s, dst[..], stack, |s|, lost)
    modifies dst
    ensures lost ==> KeySum(dst[..]) < KeySum(s)
    ensures !lost ==> IsStableSort(s, dst[..])
  {
    var runs := stack;
    while |runs| > 1
      invariant |runs| > 0 && Arranged(s, dst[..], runs, |s|, lost)
      decreases |runs|
    {
      runs := MergeStep(dst, runs, |runs| - 2, dst.Length, s, lost);
    }
    assert dst[..|s|] == dst[..] && s[..|s|] == s;
    assert runs[0] == Run(0, |s|) by { assert runs[|runs| - 1] == runs[0]; }
    assert !lost ==> Sorted(Cells(dst[..], runs[0]));
    assert Cells(dst[..], Run(0, |s|)) == dst[..];
  }

  // ------------------------------------------------------------ counting and pushing one run

  lemma {:induction false} RunEndLocal(s: seq<Elem>, t: seq<Elem>, from: nat, c: nat, down: bool)
    requires |s| == |t| && from < c < |s| && s[from..] == t[from..]
    ensures RunEnd(s, c, down) == RunEnd(t, c, down)
    decreases |s| - c
  {
    assert s[c - 1] == s[from..][c - 1 - from] == t[c - 1] && s[c] == s[from..][c - from] == t[c];
    if c + 1 < |s| { RunEndLocal(s, t, from, c + 1, down); }
  }

  /** Run counting at `curr` only looks at the entries from `curr` on. */
  lemma RunLocal(s: seq<Elem>, t: seq<Elem>, curr: nat)
    requires curr < |s| == |t| && s[curr..] == t[curr..]
    ensures RunLength(s, curr) == RunLength(t, curr) && Descends(s, curr) == Descends(t, curr)
  {
    if curr + 1 < |s| {
      assert s[curr..][0] == t[curr..][0] && s[curr..][1] == t[curr..][1];
    }
    if curr + 2 < |s| { RunEndLocal(s, t, curr, curr + 2, Descends(s, curr)); }
  }

  /** What counting one run and extending it to the minimum length does to the cells it takes. */
  ghost predicate Counted(a: seq<Elem>, a': seq<Elem>, curr: nat, next: nat, minrun: nat) {
    && curr < next <= |a| == |a'|
    && (next - curr >= minrun || next == |a|) && next == NextStart(a, minrun, curr)
    && a'[..curr] == a[..curr] && a'[next..] == a[next..]
    && if Descends(a, curr) then KeySum(a'[curr..next]) < KeySum(a[curr..next])
       else IsStableSort(a[curr..next], a'[curr..next])
  }

  lemma SumLonger(a: seq<Elem>, b: seq<Elem>, lo: nat, mid: nat, hi: nat)
    requires lo <= mid <= hi <= |a| == |b| && a[mid..] == b[mid..]
    requires KeySum(b[lo..mid]) < KeySum(a[lo..mid])
    ensures KeySum(b[lo..hi]) < KeySum(a[lo..hi])
  {
    assert a[lo..hi] == a[lo..mid] + a[mid..hi] && b[lo..hi] == b[lo..mid] + b[mid..hi];
    assert a[mid..hi] == a[mid..][..hi - mid] == b[mid..hi];
    KeySumConcat(a[lo..mid], a[mid..hi]);
    KeySumConcat(b[lo..mid], a[mid..hi]);
  }

  method CountNext(dst: array<Elem>, curr: nat, minrun: nat) returns (len: nat)
    requires curr < dst.Length
    modifies dst
    ensures Counted(old(dst[..]), dst[..], curr, curr + len, minrun)
  {
    hide KeySum, Sorted, RunLength, Descends, AfterCount, Stable;
    ghost var a := dst[..];
    CountedRun(a, curr);
    len := CountRun(dst, curr);
    ghost var b := dst[..];
    var run := minrun;
    if run > dst.Length - curr { run := dst.Length - curr; }
    if run > len {
      BinaryInsertionSortStart(dst, curr, len, run);
      CountedMore(a, b, dst[..], curr, curr + len, curr + run);
      len := run;
    } else {
      StableSelf(a[curr..curr + len]);
    }
  }

  lemma StableSelf(s: seq<Elem>)
    ensures Stable(s, s)
  {
  }

  /** The cells a run is extended by were not touched by the counting. */
  lemma CountedMore(a: seq<Elem>, b: seq<Elem>, c: seq<Elem>, curr: nat, mid: nat, next: nat)
    requires curr < mid < next <= |a| == |b| == |c| && b[..curr] == a[..curr] && b[mid..] == a[mid..]
    requires c[..curr] == b[..curr] && c[next..] == b[next..] && KeySum(c[curr..next]) == KeySum(b[curr..next])
    ensures c[..curr] == a[..curr] && c[next..] == a[next..]
    ensures KeySum(b[curr..mid]) < KeySum(a[curr..mid]) ==> KeySum(c[curr..next]) < KeySum(a[curr..next])
  {
    assert b[next..] == b[mid..][next - mid..] == a[next..];
    if KeySum(b[curr..mid]) < KeySum(a[curr..mid]) {
      SumLonger(a, b, curr, mid, next);
    }
  }

  lemma PushSum(s: seq<Elem>, a: seq<Elem>, b: seq<Elem>, curr: nat, next: nat)
    requires curr <= next <= |s| == |a| == |b| && a[curr..] == s[curr..] && b[..curr] == a[..curr]
    requires KeySum(a[..curr]) <= KeySum(s[..curr]) && KeySum(b[curr..next]) <= KeySum(a[curr..next])
    ensures KeySum(b[..next]) <= KeySum(s[..next])
    ensures (KeySum(a[..curr]) < KeySum(s[..curr]) || KeySum(b[curr..next]) < KeySum(a[curr..next]))
              ==> KeySum(b[..next]) < KeySum(s[..next])
  {
    assert s[..next] == s[..curr] + s[curr..next] && b[..next] == b[..curr] + b[curr..next];
    assert s[curr..next] == s[curr..][..next - curr] == a[curr..next];
    KeySumConcat(s[..curr], s[curr..next]);
    KeySumConcat(b[..curr], b[curr..next]);
  }

  lemma PushStable(s: seq<Elem>, a: seq<Elem>, b: seq<Elem>, curr: nat, next: nat)
    requires curr <= next <= |s| == |a| == |b| && a[curr..] == s[curr..] && b[..curr] == a[..curr]
    requires Stable(s[..curr], a[..curr]) && Stable(a[curr..next], b[curr..next])
    ensures Stable(s[..next], b[..next])
  {
    assert s[..next] == s[..curr] + s[curr..next] && b[..next] == b[..curr] + b[curr..next];
    assert s[curr..next] == s[curr..][..next - curr] == a[curr..next];
    StableConcat(s[..curr], a[..curr], s[curr..next], b[curr..next]);
  }

  lemma StableSum(s: seq<Elem>, t: seq<Elem>)
    requires Stable(s, t)
    ensures KeySum(s) == KeySum(t)
  {
    StableIsPermutation(s, t);
    PermutationSum(s, t);
  }

  lemma PushSorted(a: seq<Elem>, b: seq<Elem>, runs: seq<Run>, curr: nat, next: nat)
    requires curr < next <= |a| == |b| && b[..curr] == a[..curr] && Tiles(runs, curr)
    requires RunsSorted(a, runs) && Sorted(b[curr..next])
    ensures RunsSorted(b, runs + [Run(curr, next - curr)])
  {
    var pushed := runs + [Run(curr, next - curr)];
    forall i | 0 <= i < |pushed| ensures End(pushed[i]) <= |b| && Sorted(Cells(b, pushed[i])) {
      if i < |runs| {
        InOrder(runs, curr, i, i);
        assert Cells(b, runs[i]) == b[..curr][runs[i].start..End(runs[i])] == Cells(a, runs[i]);
      }
    }
  }

  lemma PushTiles(runs: seq<Run>, curr: nat, next: nat)
    requires Tiles(runs, curr) && curr < next
    ensures Tiles(runs + [Run(curr, next - curr)], next)
  {
  }

  lemma PushArranged(s: seq<Elem>, a: seq<Elem>, b: seq<Elem>, runs: seq<Run>, curr: nat, next: nat, minrun: nat,
                     lost: bool)
    requires curr < |s| == |a| && Arranged(s, a, runs, curr, lost) && Counted(a, b, curr, next, minrun)
    ensures Arranged(s, b, runs + [Run(curr, next - curr)], next, lost || Descends(a, curr))
  {
    PushTiles(runs, curr, next);
    assert b[next..] == a[next..] == a[curr..][next - curr..] == s[next..];
    if lost || Descends(a, curr) {
      hide RunsSorted, Sorted;
      if !lost { StableSum(s[..curr], a[..curr]); }
      if !Descends(a, curr) { StableSum(a[curr..next], b[curr..next]); }
      PushSum(s, a, b, curr, next);
    } else {
      PushStable(s, a, b, curr, next);
      PushSorted(a, b, runs, curr, next);
    }
  }

  // ------------------------------------------------------------ tim_sort

  /** The state of the main loop between two pushes. */
  ghost predicate Progress(s: seq<Elem>, a: seq<Elem>, runs: seq<Run>, curr: nat, lost: bool, pushed: seq<nat>)
    requires curr <= |s| == |a|
  {
    && Arranged(s, a, runs, curr, lost)
    && (AllAscend(s, MinRun(|s|), 0) <==> !lost && AllAscend(s, MinRun(|s|), curr))
    && RunStack.Sum(pushed) == curr
    && (curr < |s| ==> RunStack.AllAtLeast(pushed, 32))
  }

  lemma AscendStep(s: seq<Elem>, a: seq<Elem>, curr: nat, next: nat, lost: bool)
    requires curr < next <= |s| == |a| && a[curr..] == s[curr..]
    requires AllAscend(s, MinRun(|s|), 0) <==> !lost && AllAscend(s, MinRun(|s|), curr)
    requires !Descends(a, curr) ==> next == NextStart(a, MinRun(|s|), curr)
    ensures AllAscend(s, MinRun(|s|), 0) <==> !(lost || Descends(a, curr)) && AllAscend(s, MinRun(|s|), next)
  {
    RunLocal(s, a, curr);
  }

  /** The fixed run stack has 128 entries; on up to 2^44 elements a push must find one free. */
  predicate HasRoom(stack: seq<Run>, size: nat) {
    size <= 0x1000_0000_0000 ==> |stack| < 128
  }

  /** One `PUSH_NEXT`. */
  method PushNext(dst: array<Elem>, stack: seq<Run>, start: nat, minrun: nat,
                  ghost s: seq<Elem>, ghost lost: bool, ghost pushed: seq<nat>)
    returns (runs: seq<Run>, curr: nat, ghost lost': bool)
    requires start < |s| == dst.Length && Progress(s, dst[..], stack, start, lost, pushed)
    requires minrun == MinRun(|s|) >= 32
    requires HasRoom(stack, dst.Length)
    modifies dst
    ensures start < curr <= dst.Length && runs == stack + [Run(start, curr - start)]
    ensures Progress(s, dst[..], runs, curr, lost', pushed + [curr - start])
  {
    ghost var a := dst[..];
    var len := CountNext(dst, start, minrun);
    curr := start + len;
    runs := stack + [Run(start, len)];
    lost' := lost || Descends(a, start);
    PushProgress(s, a, dst[..], stack, start, curr, lost, pushed);
  }

  lemma PushProgress(s: seq<Elem>, a: seq<Elem>, b: seq<Elem>, runs: seq<Run>, start: nat, curr: nat, lost: bool,
                     pushed: seq<nat>)
    requires start < |s| == |a| && Progress(s, a, runs, start, lost, pushed)
    requires MinRun(|s|) >= 32 && Counted(a, b, start, curr, MinRun(|s|))
    ensures Progress(s, b, runs + [Run(start, curr - start)], curr, lost || Descends(a, start), pushed + [curr - start])
  {
    PushArranged(s, a, b, runs, start, curr, MinRun(|s|), lost);
    assert a[start..] == s[start..] && start < curr <= |s| && (curr < |s| ==> curr - start >= 32);
    assert curr == NextStart(a, MinRun(|s|), start);
    hide Arranged, Counted, AllAscend, MinRun, NextStart;
    AscendStep(s, a, start, curr, lost);
    RunStack.SumConcat(pushed, [curr - start]);
    RunStack.SumPair(curr - start, 0);
  }

  /** `check_invariant`. */
  predicate CheckInvariant(runs: seq<Run>) {
    RunStack.TopThree(Lens(runs))
  }

  lemma {:induction false} LensSum(runs: seq<Run>, curr: nat)
    requires Tiles(runs, curr)
    ensures RunStack.Sum(Lens(runs)) == curr
    decreases |runs|
  {
    if runs != [] {
      var n := |runs| - 1;
      assert Lens(runs) == Lens(runs[..n]) + [runs[n].len];
      LensSum(runs[..n], runs[n].start);
      RunStack.SumConcat(Lens(runs[..n]), [runs[n].len]);
      RunStack.SumPair(runs[n].len, 0);
    }
  }

  /** A stack that passes the check is one no collapse changes, and one that fails it shrinks. */
  lemma CheckDecides(runs: seq<Run>, curr: nat, size: nat)
    requires Tiles(runs, curr) && curr != size
    ensures CheckInvariant(runs) ==> RunStack.Collapsed(Lens(runs), size) == Lens(runs)
    ensures !CheckInvariant(runs) ==> |RunStack.Collapsed(Lens(runs), size)| < |runs|
  {
    LensSum(runs, curr);
    if |runs| == 2 {
      assert Lens(runs) == [runs[0].len, runs[1].len];
      RunStack.SumPair(runs[0].len, runs[1].len);
    }
  }

  lemma SortsOrLoses(s: seq<Elem>, t: seq<Elem>, lost: bool)
    requires lost ==> KeySum(t) < KeySum(s)
    requires !lost ==> IsStableSort(s, t)
    ensures IsStableSort(s, t) <==> !lost
    ensures multiset(t) == multiset(s) <==> !lost
  {
    if lost {
      if multiset(t) == multiset(s) { PermutationSum(s, t); }
    } else {
      StableIsPermutation(s, t);
    }
    if Stable(s, t) { StableIsPermutation(s, t); }
  }

  /** Between two rounds of the main loop: the stack is on its way to what `StackAfter` says. */
  ghost predicate Running(s: seq<Elem>, a: seq<Elem>, runs: seq<Run>, curr: nat, lost: bool, pushed: seq<nat>) {
    && curr < |s| == |a| && Progress(s, a, runs, curr, lost, pushed)
    && RunStack.Collapsed(Lens(runs), |s|) == RunStack.StackAfter(pushed, |s|)
  }

  lemma LensPush(runs: seq<Run>, r: Run)
    ensures Lens(runs + [r]) == Lens(runs) + [r.len]
  {
  }

  /** A stack that passes the check has its final shape, with room for one more run. */
  lemma CheckedStack(s: seq<Elem>, a: seq<Elem>, runs: seq<Run>, curr: nat, lost: bool, pushed: seq<nat>)
    requires Running(s, a, runs, curr, lost, pushed) && CheckInvariant(runs)
    ensures Lens(runs) == RunStack.StackAfter(pushed, |s|)
    ensures HasRoom(runs, |s|)
  {
    CheckDecides(runs, curr, |s|);
    if |s| <= 0x1000_0000_0000 { RunStack.StackFits(pushed, |s|); }
  }

  lemma StackPushed(pushed: seq<nat>, x: nat, size: nat)
    requires |pushed| >= 2
    ensures RunStack.StackAfter(pushed + [x], size) == RunStack.Collapsed(RunStack.StackAfter(pushed, size) + [x], size)
  {
    assert (pushed + [x])[..|pushed|] == pushed;
  }

  lemma RunningArranged(s: seq<Elem>, a: seq<Elem>, runs: seq<Run>, curr: nat, lost: bool, pushed: seq<nat>)
    requires Running(s, a, runs, curr, lost, pushed)
    ensures curr < |s| == |a| && Tiles(runs, curr) && Arranged(s, a, runs, curr, lost)
    ensures forall a', runs' :: |a'| == |s| && Arranged(s, a', runs', curr, lost)
              && RunStack.Collapsed(Lens(runs'), |s|) == RunStack.Collapsed(Lens(runs), |s|)
              ==> Running(s, a', runs', curr, lost, pushed)
  {
  }

  /** What `tim_sort` has done to `s` in the end. */
  ghost predicate Outcome(s: seq<Elem>, t: seq<Elem>) {
    && (IsStableSort(s, t) <==> Ascends(s))
    && (multiset(t) == multiset(s) <==> Ascends(s))
    && (!Ascends(s) ==> KeySum(t) < KeySum(s))
  }

  lemma Finished(s: seq<Elem>, a: seq<Elem>, runs: seq<Run>, lost: bool, pushed: seq<nat>, t: seq<Elem>)
    requires 64 <= |s| == |a| && Progress(s, a, runs, |s|, lost, pushed)
    requires lost ==> KeySum(t) < KeySum(s)
    requires !lost ==> IsStableSort(s, t)
    ensures Outcome(s, t)
  {
    SortsOrLoses(s, t, lost);
  }

  /** The last merges; afterwards the array holds the outcome. */
  method Finish(dst: array<Elem>, runs: seq<Run>, ghost s: seq<Elem>, ghost lost: bool, ghost pushed: seq<nat>)
    requires 64 <= |s| == dst.Length && Progress(s, dst[..], runs, |s|, lost, pushed)
    modifies dst
    ensures Outcome(s, dst[..])
  {
    ghost var a := dst[..];
    FinishUp(dst, runs, s, lost);
    Finished(s, a, runs, lost, pushed, dst[..]);
  }

  /** The collapse of the main loop, on a stack that fails the check. */
  method CollapseStep(dst: array<Elem>, stack: seq<Run>, curr: nat,
                      ghost s: seq<Elem>, ghost lost: bool, ghost pushed: seq<nat>)
    returns (runs: seq<Run>)
    requires |s| == dst.Length && Running(s, dst[..], stack, curr, lost, pushed) && !CheckInvariant(stack)
    modifies dst
    ensures Running(s, dst[..], runs, curr, lost, pushed) && |runs| < |stack|
  {
    ghost var before := dst[..];
    RunningArranged(s, before, stack, curr, lost, pushed);
    CheckDecides(stack, curr, dst.Length);
    hide Running, Arranged, RunStack.Collapsed, CheckInvariant;
    runs := Collapse(dst, stack, curr, s, lost);
    CollapsedTwice(Lens(stack), dst.Length);
  }

  lemma {:induction false} CollapsedTwice(st: seq<nat>, size: nat)
    ensures RunStack.Collapsed(RunStack.Collapsed(st, size), size) == RunStack.Collapsed(st, size)
    decreases |st|
  {
    var n := |st|;
    if n > 2 {
      if st[n - 3] <= st[n - 2] + st[n - 1] && st[n - 3] < st[n - 1] {
        CollapsedTwice(RunStack.MergeSecond(st), size);
      } else if st[n - 3] <= st[n - 2] + st[n - 1] || st[n - 2] <= st[n - 1] {
        CollapsedTwice(RunStack.MergeTop(st), size);
      }
    }
  }

  /** The push of the main loop, on a stack that passes the check. */
  method PushStep(dst: array<Elem>, stack: seq<Run>, start: nat, minrun: nat,
                  ghost s: seq<Elem>, ghost lost: bool, ghost pushed: seq<nat>)
    returns (runs: seq<Run>, curr: nat, ghost lost': bool, ghost pushed': seq<nat>)
    requires |s| == dst.Length && minrun == MinRun(|s|) >= 32 && |pushed| >= 2
    requires start < |s| && Progress(s, dst[..], stack, start, lost, pushed)
    requires Lens(stack) == RunStack.StackAfter(pushed, |s|) && HasRoom(stack, |s|)
    modifies dst
    ensures start < curr <= dst.Length && |runs| == |stack| + 1 && |pushed'| == |pushed| + 1
    ensures Progress(s, dst[..], runs, curr, lost', pushed')
    ensures curr < dst.Length ==> Running(s, dst[..], runs, curr, lost', pushed')
  {
    hide Progress, Lens, HasRoom, RunStack.StackAfter, RunStack.Collapsed;
    runs, curr, lost' := PushNext(dst, stack, start, minrun, s, lost, pushed);
    pushed' := pushed + [curr - start];
    LensPush(stack, Run(start, curr - start));
    StackPushed(pushed, curr - start, |s|);
  }

  method MainLoop(dst: array<Elem>, stack: seq<Run>, start: nat, minrun: nat,
                  ghost s: seq<Elem>, ghost lost0: bool, ghost pushed0: seq<nat>)
    requires 64 <= |s| == dst.Length && minrun == MinRun(|s|) >= 32
    requires |pushed0| >= 3 && Running(s, dst[..], stack, start, lost0, pushed0)
    modifies dst
    ensures Outcome(s, dst[..])
  {
    var runs, curr := stack, start;
    ghost var lost, pushed := lost0, pushed0;
    hide HasRoom, CheckInvariant, Outcome, Progress, Lens, RunStack.StackAfter, RunStack.Collapsed;
    while true
      invariant |pushed| >= 3 && Running(s, dst[..], runs, curr, lost, pushed)
      decreases dst.Length - curr, |runs|
    {
      if !CheckInvariant(runs) {
        runs := CollapseStep(dst, runs, curr, s, lost, pushed);
        continue;
      }
      CheckedStack(s, dst[..], runs, curr, lost, pushed);
      runs, curr, lost, pushed := PushStep(dst, runs, curr, minrun, s, lost, pushed);
      if curr == dst.Length {
        Finish(dst, runs, s, lost, pushed);
        return;
      }
    }
  }

  lemma FirstPushes(s: seq<Elem>, a: seq<Elem>, runs: seq<Run>, curr: nat, lost: bool, pushed: seq<nat>)
    requires curr < |s| == |a| && Progress(s, a, runs, curr, lost, pushed)
    requires |pushed| == 3 && Lens(runs) == pushed
    ensures Running(s, a, runs, curr, lost, pushed)
  {
    assert pushed[..2] + [pushed[2]] == pushed;
  }

  /**
   * `tim_sort`: the result is the stable sort of the input exactly when no run starts with a strict
   * descent; otherwise it is not even a permutation.
   */
  method TimSort(dst: array<Elem>)
    modifies dst
    ensures IsStableSort(old(dst[..]), dst[..]) <==> Ascends(old(dst[..]))
    ensures multiset(dst[..]) == multiset(old(dst[..])) <==> Ascends(old(dst[..]))
    ensures !Ascends(old(dst[..])) ==> KeySum(dst[..]) < KeySum(old(dst[..]))
  {
    ghost var s := dst[..];
    if dst.Length < 64 {
      BinaryInsertionSort(dst, dst.Length);
      SortsOrLoses(s, dst[..], false);
      return;
    }
    var minrun := MinRun(dst.Length);
    MinRunRange(dst.Length);
    ghost var pushed: seq<nat>, lost := [], false;
    var runs: seq<Run>, curr := [], 0;
    NothingPushed(s);
    hide Progress, Lens, MinRun, Ascends, KeySum, IsStableSort, RunStack.StackAfter, RunStack.Collapsed;
    var k := 0;
    while k < 3
      invariant k <= 3 && |pushed| == k
      invariant curr < |s| == dst.Length && Progress(s, dst[..], runs, curr, lost, pushed)
      invariant Lens(runs) == pushed && |runs| == k
    {
      ghost var start, stack := curr, runs;
      runs, curr, lost := PushNext(dst, runs, curr, minrun, s, lost, pushed);
      pushed := pushed + [curr - start];
      LensPush(stack, Run(start, curr - start));
      k := k + 1;
      if curr == dst.Length {
        Finish(dst, runs, s, lost, pushed);
        return;
      }
    }
    FirstPushes(s, dst[..], runs, curr, lost, pushed);
    MainLoop(dst, runs, curr, minrun, s, lost, pushed);
  }

  lemma NothingPushed(s: seq<Elem>)
    requires |s| >= 64
    ensures Progress(s, s, [], 0, false, []) && Lens([]) == []
  {
    assert s[..0] == [];
  }

  // ------------------------------------------------------------ on either side of the condition

  /** Sorted input is never touched by the loss. */
  lemma {:induction false} SortedAscends(s: seq<Elem>, minrun: nat, curr: nat)
    requires Sorted(s) && curr <= |s|
    ensures AllAscend(s, minrun, curr)
    decreases |s| - curr
  {
    if curr < |s| {
      SortedAscends(s, minrun, NextStart(s, minrun, curr));
    }
  }

  /** 64 entries the first two of which are out of order. */
  method LosingRun() returns (before: seq<Elem>, after: seq<Elem>)
    ensures |before| == |after| == 64 && forall i :: 2 <= i < 64 ==> before[i] == Elem(i, 0)
    ensures before[0] == Elem(1, 0) && before[1] == Elem(0, 0)
    ensures !IsStableSort(before, after) && multiset(after) != multiset(before)
  {
    var dst := new Elem[64](i => if i == 0 then Elem(1, 0) else if i == 1 then Elem(0, 0) else Elem(i, 0));
    before := dst[..];
    assert Descends(before, 0);
    TimSort(dst);
    after := dst[..];
  }
}
