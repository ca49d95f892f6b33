/** The run stack of src/timsort.h as a stack of lengths: what the collapse policy keeps, and how deep it gets. */
module RunStack {
  import opened Powers

  /** `check_invariant`: only the top three runs are looked at. */
  predicate TopThree(st: seq<nat>) {
    var n := |st|;
    if n < 2 then true
    else if n == 2 then st[0] > st[1]
    else st[n - 3] > st[n - 2] + st[n - 1] && st[n - 2] > st[n - 1]
  }

  /** The two merges of a collapse, on a stack of three or more. */
  function MergeSecond(st: seq<nat>): seq<nat>
    requires |st| >= 3
  {
    st[..|st| - 3] + [st[|st| - 3] + st[|st| - 2], st[|st| - 1]]
  }

  function MergeTop(st: seq<nat>): seq<nat>
    requires |st| >= 3
  {
    st[..|st| - 2] + [st[|st| - 2] + st[|st| - 1]]
  }

  /** `tim_sort_collapse` on the lengths. */
  function Collapsed(st: seq<nat>, size: nat): (r: seq<nat>)
    ensures |r| <= |st|
    decreases |st|
  {
    var n := |st|;
    if n <= 1 then st
    else if n == 2 then
      if st[0] + st[1] == size || st[0] <= st[1] then [st[0] + st[1]] else st
    else
      var A, B, C := st[n - 3], st[n - 2], st[n - 1];
      if A <= B + C then
        if A < C then Collapsed(MergeSecond(st), size)
        else Collapsed(MergeTop(st), size)
      else if B <= C then Collapsed(MergeTop(st), size)
      else st
  }

  /** The stack before the next run is counted, once runs of the given lengths were pushed. */
  function StackAfter(runs: seq<nat>, size: nat): seq<nat> {
    var n := |runs|;
    if n < 3 then runs else Collapsed(StackAfter(runs[..n - 1], size) + [runs[n - 1]], size)
  }

  function Sum(st: seq<nat>): nat {
    if st == [] then 0 else st[0] + Sum(st[1..])
  }

  lemma {:induction false} SumConcat(a: seq<nat>, b: seq<nat>)
    ensures Sum(a + b) == Sum(a) + Sum(b)
  {
    if a == [] {
      assert a + b == b;
    } else {
      assert (a + b)[1..] == a[1..] + b;
      SumConcat(a[1..], b);
    }
  }

  lemma SumPair(x: nat, y: nat)
    ensures Sum([x]) == x && Sum([x, y]) == x + y
  {
    assert [x, y][1..] == [y];
    assert [x][1..] == [] && [y][1..] == [];
  }

  /**
   * The whole-stack condition "each length exceeds the sum of the next two" is not kept: `marks[l]`
   * is 0 when it holds for the entry at `l` and the two below it. Otherwise the entry at `l` is the
   * result of merging the second and third runs from the top under a run of length `marks[l]`.
   */
  ghost predicate Marked(st: seq<nat>, marks: seq<nat>, l: nat)
    requires |st| == |marks| && l < |st|
  {
    if marks[l] == 0 then
      l >= 2 ==> st[l - 2] > st[l - 1] + st[l]
    else
      && 1 <= l < |st| - 1
      && st[l - 1] >= st[l] + marks[l]
      && marks[l] < st[l] <= 6 * marks[l]
      && marks[l] <= st[l + 1]
      && (marks[l + 1] > 0 ==> marks[l] <= marks[l + 1])
  }

  predicate Decreasing(st: seq<nat>) {
    forall l :: 0 <= l < |st| ==> st[l] > 0 && (l > 0 ==> st[l - 1] > st[l])
  }

  ghost predicate Settled(st: seq<nat>, marks: seq<nat>) {
    && |st| == |marks|
    && Decreasing(st)
    && forall l :: 0 <= l < |st| ==> Marked(st, marks, l)
  }

  // ------------------------------------------------------------ sums over a settled stack

  /** Three unmarked neighbours and what lies above them. */
  lemma {:induction false} TailBound(st: seq<nat>, marks: seq<nat>, l: nat)
    requires Settled(st, marks) && 1 <= l < |st|
    ensures Sum(st[l..]) <= 2 * st[l - 1] + 3 * st[l]
    ensures marks[l] > 0 ==> Sum(st[l..]) <= 4 * st[l - 1]
    decreases |st| - l, 1
  {
    assert st[l..][1..] == st[l + 1..];
    assert Sum(st[l..]) == st[l] + Sum(st[l + 1..]);
    assert Marked(st, marks, l) && st[l - 1] > st[l];
    if l + 1 < |st| {
      assert Marked(st, marks, l + 1) && st[l] > st[l + 1];
      TailBound(st, marks, l + 1);
      if marks[l + 1] == 0 {
        hide *;
        TailPlain(st[l - 1], st[l], st[l + 1], Sum(st[l + 1..]));
      } else if marks[l] > 0 {
        var k := ChainBound(st, marks, l);
        assert st[l] <= 6 * marks[l] && st[l - 1] >= st[l] + marks[l];
        hide *;
        ChainEnds(st[l - 1], st[l], marks[l], k, Sum(st[l..]));
      }
    } else {
      assert st[l + 1..] == [];
    }
  }

  lemma TailPlain(a: nat, b: nat, c: nat, above: nat)
    requires a > b + c && b > c && above <= 2 * b + 3 * c
    ensures b + above <= 2 * a + 3 * b && b + above <= 4 * a
  {
  }

  lemma ChainEnds(a: nat, b: nat, m: nat, k: nat, sum: nat)
    requires k <= 4 && b <= 6 * m && a >= b + m && sum <= (4 + k) * b - Offset(k) * m
    ensures sum <= 4 * a
  {
    match k
    case 0 =>
    case 1 =>
    case 2 =>
    case 3 =>
    case 4 =>
  }

  function Offset(k: nat): nat {
    if k == 0 then 0 else Offset(k - 1) + 3 + k
  }

  /** A chain of `k + 2` marked entries: each step down the chain costs at least the first mark. */
  lemma {:induction false} ChainBound(st: seq<nat>, marks: seq<nat>, l: nat) returns (k: nat)
    requires Settled(st, marks) && 1 <= l < |st| - 1 && marks[l] > 0 && marks[l + 1] > 0
    ensures k <= 4 && st[l] >= (k + 2) * marks[l]
    ensures Sum(st[l..]) <= (4 + k) * st[l] - Offset(k) * marks[l]
    decreases |st| - l, 0
  {
    assert st[l..][1..] == st[l + 1..];
    assert st[l + 1..][1..] == st[l + 2..];
    assert Marked(st, marks, l) && Marked(st, marks, l + 1) && Marked(st, marks, l + 2);
    if marks[l + 2] == 0 {
      TailBound(st, marks, l + 2);
      k := 0;
    } else {
      var j := ChainBound(st, marks, l + 1);
      k := j + 1;
      ChainStep(st[l], st[l + 1], marks[l], marks[l + 1], j, Sum(st[l + 1..]));
    }
  }

  lemma ChainStep(u: nat, v: nat, c: nat, d: nat, j: nat, sum: nat)
    requires j <= 4 && 0 < c <= d && u >= v + d && u <= 6 * c && v >= (j + 2) * d
    requires sum <= (4 + j) * v - Offset(j) * d
    ensures j < 4 && u >= (j + 3) * c && u + sum <= (5 + j) * u - Offset(j + 1) * c
  {
    assert Offset(1) == 4;
    assert Offset(2) == 9;
    assert Offset(3) == 15;
    assert Offset(4) == 22;
    if j == 0 {} else if j == 1 {} else if j == 2 {} else if j == 3 {} else {}
  }

  /** A settled stack never holds more than six times the length of any of its entries above that entry. */
  lemma TailSum(st: seq<nat>, marks: seq<nat>, l: nat)
    requires Settled(st, marks) && l < |st|
    ensures Sum(st[l..]) <= 6 * st[l]
  {
    assert st[l..][1..] == st[l + 1..];
    if l + 1 < |st| {
      TailBound(st, marks, l + 1);
    } else {
      assert st[l + 1..] == [];
    }
  }

  // ------------------------------------------------------------ what a collapse leaves

  /**
   * A stack in the middle of a collapse: the first `k` entries of the settled stack `st` are untouched
   * and `b`, `c` lie on top of them. Either `b` is still entry `k`, or entries from `k` on were merged
   * into it under a longer top run.
   */
  ghost predicate Collapsing(st: seq<nat>, marks: seq<nat>, k: nat, b: nat, c: nat) {
    && Settled(st, marks)
    && k < |st|
    && c > 0
    && if b == st[k] then k + 1 < |st| ==> st[k + 1] <= c
       else st[k] < c && st[k] < b <= Sum(st[k..])
  }

  /** The stack in that state. */
  function Midway(st: seq<nat>, k: nat, b: nat, c: nat): seq<nat>
    requires k < |st|
  {
    st[..k] + [b, c]
  }

  lemma SettledTwo(st: seq<nat>, size: nat) returns (marks: seq<nat>)
    requires |st| == 2 && st[0] > 0 && st[1] > 0
    ensures Settled(Collapsed(st, size), marks) && TopThree(Collapsed(st, size))
  {
    marks := if st[0] + st[1] == size || st[0] <= st[1] then [0] else [0, 0];
  }

  /** One round of the collapse in that state. */
  lemma CollapseMidway(st: seq<nat>, k: nat, b: nat, c: nat, size: nat)
    requires 0 < k < |st|
    ensures var a := st[k - 1];
      Collapsed(Midway(st, k, b, c), size) ==
        if a <= b + c && a < c then Collapsed(Midway(st, k - 1, a + b, c), size)
        else if a <= b + c || b <= c then Collapsed(Midway(st, k - 1, a, b + c), size)
        else Midway(st, k, b, c)
  {
    var mid := Midway(st, k, b, c);
    assert MergeSecond(mid) == Midway(st, k - 1, st[k - 1] + b, c);
    assert MergeTop(mid) == Midway(st, k - 1, st[k - 1], b + c);
  }

  lemma {:induction false} CollapseSettles(st: seq<nat>, marks: seq<nat>, k: nat, b: nat, c: nat, size: nat)
    returns (marks': seq<nat>)
    requires Collapsing(st, marks, k, b, c)
    ensures Settled(Collapsed(Midway(st, k, b, c), size), marks')
    ensures TopThree(Collapsed(Midway(st, k, b, c), size))
    decreases k
  {
    hide Marked, Collapsed, TopThree;
    if k == 0 {
      assert Midway(st, k, b, c) == [b, c];
      marks' := SettledTwo([b, c], size);
    } else {
      var a := st[k - 1];
      CollapseMidway(st, k, b, c, size);
      HeadInSum(st, k);
      assert st[k - 1..][1..] == st[k..];
      if a <= b + c && a < c {
        marks' := CollapseSettles(st, marks, k - 1, a + b, c, size);
      } else if a <= b + c || b <= c {
        marks' := CollapseSettles(st, marks, k - 1, a, b + c, size);
      } else {
        marks' := marks[..k] + [if b == st[k] then marks[k] else st[k], 0];
        TailSum(st, marks, k);
        ExitSettled(st, marks, k, b, c, Midway(st, k, b, c), marks');
      }
    }
  }

  lemma HeadInSum(st: seq<nat>, k: nat)
    requires k < |st|
    ensures st[k] <= Sum(st[k..])
  {
  }

  /** The stack a collapse stops at, and its marks. */
  ghost predicate Exits(st: seq<nat>, marks: seq<nat>, k: nat, b: nat, c: nat, mid: seq<nat>, marks': seq<nat>) {
    && Collapsing(st, marks, k, b, c) && k > 0 && st[k - 1] > b + c && b > c
    && mid == Midway(st, k, b, c) && Sum(st[k..]) <= 6 * st[k]
    && marks' == marks[..k] + [if b == st[k] then marks[k] else st[k], 0]
  }

  lemma ExitTop(st: seq<nat>, marks: seq<nat>, k: nat, b: nat, c: nat, mid: seq<nat>, marks': seq<nat>)
    requires Exits(st, marks, k, b, c, mid, marks')
    ensures Marked(mid, marks', k) && Marked(mid, marks', k + 1)
  {
    assert Marked(st, marks, k);
  }

  lemma ExitBelow(st: seq<nat>, marks: seq<nat>, k: nat, b: nat, c: nat, mid: seq<nat>, marks': seq<nat>, l: nat)
    requires Exits(st, marks, k, b, c, mid, marks') && l < k
    ensures Marked(mid, marks', l)
  {
    assert Marked(st, marks, l);
  }

  lemma ExitSettled(st: seq<nat>, marks: seq<nat>, k: nat, b: nat, c: nat, mid: seq<nat>, marks': seq<nat>)
    requires Exits(st, marks, k, b, c, mid, marks')
    ensures Settled(mid, marks') && TopThree(mid)
  {
    forall l | 0 <= l < |mid| ensures Marked(mid, marks', l) {
      if l < k {
        ExitBelow(st, marks, k, b, c, mid, marks', l);
      } else {
        ExitTop(st, marks, k, b, c, mid, marks');
      }
    }
  }

  /** Pushing a run on a settled stack and collapsing settles the stack again. */
  lemma PushSettles(st: seq<nat>, marks: seq<nat>, x: nat, size: nat) returns (marks': seq<nat>)
    requires Settled(st, marks) && x > 0
    ensures Settled(Collapsed(st + [x], size), marks')
    ensures TopThree(Collapsed(st + [x], size))
  {
    if st == [] {
      marks' := [0];
    } else {
      var k := |st| - 1;
      assert st + [x] == Midway(st, k, st[k], x);
      marks' := CollapseSettles(st, marks, k, st[k], x, size);
    }
  }

  // ------------------------------------------------------------ depth

  predicate AllAtLeast(st: seq<nat>, lo: nat) {
    forall l :: 0 <= l < |st| ==> lo <= st[l]
  }

  lemma CollapseTwo(st: seq<nat>, size: nat, lo: nat)
    requires |st| == 2 && AllAtLeast(st, lo)
    ensures Sum(Collapsed(st, size)) == Sum(st) && AllAtLeast(Collapsed(st, size), lo)
    ensures |Collapsed(st, size)| > 0
  {
    assert st == [st[0], st[1]];
    SumPair(st[0], st[1]);
    SumPair(st[0] + st[1], 0);
  }

  lemma SumSplit(st: seq<nat>, k: nat)
    requires k <= |st|
    ensures Sum(st) == Sum(st[..k]) + Sum(st[k..])
  {
    assert st == st[..k] + st[k..];
    SumConcat(st[..k], st[k..]);
  }

  lemma SumTop(st: seq<nat>)
    ensures |st| >= 2 ==> Sum(st) == Sum(st[..|st| - 2]) + st[|st| - 2] + st[|st| - 1]
    ensures |st| >= 3 ==> Sum(st) == Sum(st[..|st| - 3]) + st[|st| - 3] + st[|st| - 2] + st[|st| - 1]
  {
    var n := |st|;
    if n >= 2 {
      SumSplit(st, n - 2);
      assert st[n - 2..] == [st[n - 2], st[n - 1]];
      SumPair(st[n - 2], st[n - 1]);
    }
    if n >= 3 {
      SumSplit(st, n - 3);
      assert st[n - 3..][1..] == st[n - 2..];
    }
  }

  lemma MergeSecondSum(st: seq<nat>)
    requires |st| >= 3
    ensures Sum(MergeSecond(st)) == Sum(st)
  {
    SumTop(st);
    SumConcat(st[..|st| - 3], [st[|st| - 3] + st[|st| - 2], st[|st| - 1]]);
    SumPair(st[|st| - 3] + st[|st| - 2], st[|st| - 1]);
  }

  lemma MergeTopSum(st: seq<nat>)
    requires |st| >= 3
    ensures Sum(MergeTop(st)) == Sum(st)
  {
    SumTop(st);
    SumConcat(st[..|st| - 2], [st[|st| - 2] + st[|st| - 1]]);
    SumPair(st[|st| - 2] + st[|st| - 1], 0);
  }

  lemma MergesAtLeast(st: seq<nat>, lo: nat)
    requires |st| >= 3 && AllAtLeast(st, lo)
    ensures AllAtLeast(MergeSecond(st), lo) && AllAtLeast(MergeTop(st), lo)
  {
  }

  /** A collapse only merges neighbours: the total stays and no length shrinks. */
  lemma {:induction false} CollapseConserves(st: seq<nat>, size: nat, lo: nat)
    requires AllAtLeast(st, lo)
    ensures Sum(Collapsed(st, size)) == Sum(st)
    ensures AllAtLeast(Collapsed(st, size), lo)
    ensures |st| > 0 ==> |Collapsed(st, size)| > 0
    decreases |st|
  {
    var n := |st|;
    if n == 2 {
      CollapseTwo(st, size, lo);
    } else if n > 2 {
      MergesAtLeast(st, lo);
      if st[n - 3] <= st[n - 2] + st[n - 1] && st[n - 3] < st[n - 1] {
        MergeSecondSum(st);
        CollapseConserves(MergeSecond(st), size, lo);
      } else if st[n - 3] <= st[n - 2] + st[n - 1] || st[n - 2] <= st[n - 1] {
        MergeTopSum(st);
        CollapseConserves(MergeTop(st), size, lo);
      }
    }
  }

  lemma FirstThree(st: seq<nat>, size: nat) returns (marks: seq<nat>)
    requires |st| == 3 && AllAtLeast(st, 1)
    ensures Settled(Collapsed(st, size), marks) && TopThree(Collapsed(st, size))
  {
    var A, B, C := st[0], st[1], st[2];
    if A <= B + C && A < C {
      marks := SettledTwo(MergeSecond(st), size);
    } else if A <= B + C || B <= C {
      marks := SettledTwo(MergeTop(st), size);
    } else {
      marks := [0, 0, 0];
    }
  }

  /** Whatever run lengths are pushed, the stack is settled from the third run on. */
  lemma {:induction false} StackSettles(runs: seq<nat>, size: nat) returns (marks: seq<nat>)
    requires |runs| >= 3 && AllAtLeast(runs, 1)
    ensures Settled(StackAfter(runs, size), marks) && TopThree(StackAfter(runs, size))
    decreases |runs|
  {
    var n := |runs|;
    if n == 3 {
      assert runs[..2] + [runs[2]] == runs;
      marks := FirstThree(runs, size);
    } else {
      marks := StackSettles(runs[..n - 1], size);
      marks := PushSettles(StackAfter(runs[..n - 1], size), marks, runs[n - 1], size);
    }
  }

  lemma {:induction false} StackConserves(runs: seq<nat>, size: nat, lo: nat)
    requires AllAtLeast(runs, lo)
    ensures Sum(StackAfter(runs, size)) == Sum(runs) && AllAtLeast(StackAfter(runs, size), lo)
    decreases |runs|
  {
    var n := |runs|;
    if n >= 3 {
      assert runs == runs[..n - 1] + [runs[n - 1]];
      StackConserves(runs[..n - 1], size, lo);
      SumConcat(runs[..n - 1], [runs[n - 1]]);
      SumConcat(StackAfter(runs[..n - 1], size), [runs[n - 1]]);
      CollapseConserves(StackAfter(runs[..n - 1], size) + [runs[n - 1]], size, lo);
    }
  }

  /** What one entry says of the two below it: `a` and `b` lie under `c`, which carries the mark `m`. */
  predicate Under(a: nat, b: nat, c: nat, m: nat) {
    && a > b > c
    && (m == 0 ==> a > b + c)
    && (m > 0 ==> b >= c + m && c <= 6 * m)
  }

  lemma UnderAt(st: seq<nat>, marks: seq<nat>, l: nat)
    requires Settled(st, marks) && 2 <= l < |st|
    ensures Under(st[l - 2], st[l - 1], st[l], marks[l])
    ensures l + 1 < |st| && marks[l] > 0 && marks[l + 1] > 0 ==> marks[l] <= marks[l + 1]
  {
    assert Marked(st, marks, l);
    if l + 1 < |st| { assert Marked(st, marks, l + 1); }
  }

  lemma SumStep(st: seq<nat>, l: nat)
    requires l < |st|
    ensures Sum(st[l..]) == st[l] + Sum(st[l + 1..])
  {
    assert st[l..][1..] == st[l + 1..];
  }

  /** Five entries, from the lowest up. */
  datatype Five = Five(a: nat, b: nat, c: nat, d: nat, e: nat)

  function FiveAt(st: seq<nat>, l: nat): Five
    requires l + 5 <= |st|
  {
    Five(st[l], st[l + 1], st[l + 2], st[l + 3], st[l + 4])
  }

  function Total(w: Five): nat {
    w.a + w.b + w.c + w.d + w.e
  }

  lemma FiveSum(st: seq<nat>, l: nat)
    requires l + 5 <= |st|
    ensures Sum(st[l..]) == Total(FiveAt(st, l)) + Sum(st[l + 5..])
  {
    SumStep(st, l);
    SumStep(st, l + 1);
    SumStep(st, l + 2);
    SumStep(st, l + 3);
    SumStep(st, l + 4);
  }

  /** The marks of the third, fourth and fifth entry, and those of neighbours in order. */
  ghost predicate Window(w: Five, mc: nat, md: nat, me: nat) {
    && Under(w.a, w.b, w.c, mc) && Under(w.b, w.c, w.d, md) && Under(w.c, w.d, w.e, me)
    && (mc > 0 && md > 0 ==> mc <= md) && (md > 0 && me > 0 ==> md <= me)
  }

  /** What the lower marks add, given how far `d` is above `e`. */
  lemma LowerThree(a: nat, b: nat, c: nat, d: nat, e: nat, gap: nat, mc: nat, md: nat)
    requires Under(a, b, c, mc) && Under(b, c, d, md) && d >= e + gap && (mc > 0 && md > 0 ==> mc <= md)
    ensures md == 0 ==> a + b + c + d + e >= 7 * e + 6 * gap
    ensures md > 0 && mc == 0 ==> a + b + c + d + e >= 6 * e + 5 * gap + 4 * md
    ensures md > 0 && mc > 0 ==> a + b + c + d + e >= 5 * e + 4 * gap + 3 * md + 2 * mc && 5 * mc >= e + gap
  {
    if md == 0 {
      assert b >= c + d && c >= d;
    } else if mc == 0 {
      assert a >= b + c && b >= c && c >= d + md;
    } else {
      assert a >= b && b >= c + mc && c >= d + md && c <= 6 * mc;
    }
  }

  lemma UnmarkedAbove(w: Five, mc: nat, md: nat, me: nat, f: nat, sum: nat)
    requires Window(w, mc, md, me) && Under(w.d, w.e, f, 0) && sum <= 2 * w.e + 3 * f
    ensures 2 * sum <= Total(w)
  {
    if me == 0 {
      assert w.a >= w.b >= w.c >= w.d + w.e;
    } else {
      LowerThree(w.a, w.b, w.c, w.d, w.e, f, mc, md);
    }
  }

  lemma MarkedAlone(w: Five, mc: nat, md: nat, me: nat, sum: nat)
    requires Window(w, mc, md, me) && me == 0 && sum <= 4 * w.e
    ensures 2 * sum <= Total(w)
  {
    assert w.a >= w.b >= w.c >= w.d + w.e;
  }

  lemma MarkedChain(w: Five, mc: nat, md: nat, me: nat, k: nat, sum: nat)
    requires Window(w, mc, md, me) && me > 0 && k <= 4 && w.e >= (k + 2) * me
    requires w.e + sum <= (4 + k) * w.e - Offset(k) * me
    ensures 2 * sum <= Total(w)
  {
    LowerThree(w.a, w.b, w.c, w.d, w.e, me, mc, md);
    ChainSum(w.e, me, k, sum);
    hide Total;
    if md == 0 {
    } else if mc == 0 {
      assert w.e <= 6 * md - me && md <= me;
    } else {
      assert w.e <= 6 * mc - md - me && mc <= md <= me;
    }
    ChainFits(w.e, mc, md, me, Total(w), sum, k);
  }

  lemma ChainSum(e: nat, m: nat, k: nat, sum: nat)
    requires k <= 4 && e + sum <= (4 + k) * e - Offset(k) * m
    ensures k == 0 ==> sum <= 3 * e
    ensures k == 1 ==> sum <= 4 * e - 4 * m
    ensures k == 2 ==> sum <= 5 * e - 9 * m
    ensures k == 3 ==> sum <= 6 * e - 15 * m
    ensures k == 4 ==> sum <= 7 * e - 22 * m
  {
    assert Offset(0) == 0 && Offset(1) == 4 && Offset(2) == 9 && Offset(3) == 15 && Offset(4) == 22;
  }

  lemma ChainFits(e: nat, mc: nat, md: nat, me: nat, total: nat, sum: nat, k: nat)
    requires k <= 4 && e <= 6 * me
    requires k == 0 ==> sum <= 3 * e
    requires k == 1 ==> sum <= 4 * e - 4 * me
    requires k == 2 ==> sum <= 5 * e - 9 * me
    requires k == 3 ==> sum <= 6 * e - 15 * me
    requires k == 4 ==> sum <= 7 * e - 22 * me
    requires md == 0 ==> total >= 7 * e + 6 * me
    requires md > 0 && mc == 0 ==> total >= 6 * e + 5 * me + 4 * md && e <= 6 * md - me && md <= me
    requires md > 0 && mc > 0 ==>
      total >= 5 * e + 4 * me + 3 * md + 2 * mc && e <= 6 * mc - md - me && mc <= md <= me
    ensures 2 * sum <= total
  {
  }

  lemma WindowAt(st: seq<nat>, marks: seq<nat>, l: nat)
    requires Settled(st, marks) && l + 5 <= |st|
    ensures Window(FiveAt(st, l), marks[l + 2], marks[l + 3], marks[l + 4])
  {
    UnderAt(st, marks, l + 2);
    UnderAt(st, marks, l + 3);
    UnderAt(st, marks, l + 4);
    hide Under, Settled;
  }

  /** Five levels down, the total above triples. */
  lemma FiveLevels(st: seq<nat>, marks: seq<nat>, l: nat)
    requires Settled(st, marks) && l + 5 < |st|
    ensures 3 * Sum(st[l + 5..]) <= Sum(st[l..])
  {
    hide Sum, Under, Window, Total;
    assert |st| == |marks|;
    hide Settled;
    var w, sum := FiveAt(st, l), Sum(st[l + 5..]);
    FiveSum(st, l);
    WindowAt(st, marks, l);
    UnderAt(st, marks, l + 5);
    TailBound(st, marks, l + 5);
    if marks[l + 5] == 0 {
      UnmarkedAbove(w, marks[l + 2], marks[l + 3], marks[l + 4], st[l + 5], sum);
    } else if marks[l + 4] == 0 {
      MarkedAlone(w, marks[l + 2], marks[l + 3], marks[l + 4], sum);
    } else {
      var k := ChainBound(st, marks, l + 4);
      SumStep(st, l + 4);
      MarkedChain(w, marks[l + 2], marks[l + 3], marks[l + 4], k, sum);
    }
  }

  lemma {:induction false} DepthGrows(st: seq<nat>, marks: seq<nat>, lo: nat, j: nat)
    requires Settled(st, marks) && AllAtLeast(st, lo) && 5 * j < |st|
    ensures Pow3(j) * lo <= Sum(st[|st| - 1 - 5 * j..])
  {
    var l := |st| - 1 - 5 * j;
    if j == 0 {
      HeadInSum(st, l);
    } else {
      DepthGrows(st, marks, lo, j - 1);
      FiveLevels(st, marks, l);
      assert Pow3(j) * lo == 3 * (Pow3(j - 1) * lo);
    }
  }

  /**
   * Depth against size: a stack of `n` runs of at least `lo` elements holds at least `lo * 3^((n - 1) / 5)`.
   */
  lemma DepthBound(runs: seq<nat>, size: nat, lo: nat)
    requires AllAtLeast(runs, lo) && lo > 0 && |StackAfter(runs, size)| > 0
    ensures lo * Pow3((|StackAfter(runs, size)| - 1) / 5) <= Sum(runs)
  {
    var st := StackAfter(runs, size);
    var j := (|st| - 1) / 5;
    StackConserves(runs, size, lo);
    if |runs| >= 3 {
      var marks := StackSettles(runs, size);
      DepthGrows(st, marks, lo, j);
      SumSplit(st, |st| - 1 - 5 * j);
    } else {
      assert j == 0 && st[0] <= Sum(st);
    }
  }

  /** Up to 2^44 elements in runs of at least 32, the 128 entries always leave room for the next run. */
  lemma StackFits(runs: seq<nat>, size: nat)
    requires AllAtLeast(runs, 32) && Sum(runs) <= 0x1000_0000_0000
    ensures |StackAfter(runs, size)| < 128
  {
    var st := StackAfter(runs, size);
    if |st| >= 128 {
      DepthBound(runs, size, 32);
      Pow3Monotone(25, (|st| - 1) / 5);
      Pow3Values();
    }
  }

  lemma Pow3Values()
    ensures 32 * Pow3(25) > 0x1000_0000_0000
  {
    assert Pow3(5) == 243;
    assert Pow3(10) == 59049;
    assert Pow3(15) == 14348907;
    assert Pow3(20) == 3486784401;
  }

  /** The condition "each length exceeds the sum of the next two" is lost below the top three. */
  lemma WholeStackConditionFails(size: nat)
    requires size > 3000
    ensures StackAfter([960, 640, 200, 160, 240], size) == [960, 640, 360, 240]
    ensures 960 <= 640 + 360
  {
    var three, four, five := [960, 640, 200], [960, 640, 200, 160], [960, 640, 200, 160, 240];
    assert three[..2] == [960, 640] && four[..3] == three && five[..4] == four;
    assert StackAfter([960, 640], size) == [960, 640];
    assert [960, 640] + [200] == three;
    assert StackAfter(three, size) == three;
    assert three + [160] == four;
    assert StackAfter(four, size) == four;
    assert four + [240] == five;
    assert MergeSecond(five) == [960, 640, 360, 240];
  }
}
