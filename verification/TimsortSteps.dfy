/** The in-place building blocks of src/timsort.h. */
module TimsortSteps {
  import opened StableSort

  // ------------------------------------------------------------ binary insertion

  /** Everything before `loc` is at most `key`, everything from `loc` on is bigger. */
  ghost predicate UpperBound(s: seq<Elem>, key: int, loc: nat) {
    forall i :: 0 <= i < |s| ==> (s[i].key <= key <==> i < loc)
  }

  /** Upper-bound search; the caller guarantees that `x` is smaller than the last entry. */
  method BinaryInsertionFind(dst: array<Elem>, base: nat, x: Elem, size: nat) returns (loc: nat)
    requires 0 < size && base + size <= dst.Length && x.key < dst[base + size - 1].key
    ensures loc < size
    ensures Sorted(dst[base..base + size]) ==> UpperBound(dst[base..base + size], x.key, loc)
  {
    ghost var s := dst[base..base + size];
    var l, r := 0, size - 1;
    var c := r / 2;
    if Cmp(x, dst[base + l]) < 0 {
      return 0;
    } else if Cmp(x, dst[base + l]) == 0 {
      var i := 1;
      while Cmp(x, dst[base + i]) == 0
        invariant 1 <= i < size && s[i - 1].key == x.key
        decreases size - i
      {
        i := i + 1;
      }
      FoundAt(s, x, i);
      return i;
    }
    while true
      invariant 0 <= l <= c < r < size && c == l + (r - l) / 2
      invariant s[l].key < x.key < s[r].key
      decreases r - l
    {
      var val := Cmp(x, dst[base + c]);
      if val < 0 {
        if c - l <= 1 { FoundAt(s, x, c); return c; }
        r := c;
      } else if val > 0 {
        if r - c <= 1 { FoundAt(s, x, c + 1); return c + 1; }
        l := c;
      } else {
        c := c + 1;
        while Cmp(x, dst[base + c]) == 0
          invariant 1 <= c < size && s[c - 1].key == x.key
          decreases size - c
        {
          c := c + 1;
        }
        FoundAt(s, x, c);
        return c;
      }
      c := l + (r - l) / 2;
    }
  }

  /** In a sorted sequence a neighbouring pair around `x` locates it. */
  lemma FoundAt(s: seq<Elem>, x: Elem, loc: nat)
    requires 0 < loc < |s| && s[loc - 1].key <= x.key && x.key != s[loc].key
    requires s[loc - 1].key == x.key || x.key < s[loc].key
    ensures Sorted(s) ==> UpperBound(s, x.key, loc)
  {
  }

  /** Moving the element at `i` down to `loc`. */
  function Inserted(s: seq<Elem>, loc: nat, i: nat): (r: seq<Elem>)
    requires loc <= i < |s|
    ensures |r| == |s|
  {
    s[..loc] + [s[i]] + s[loc..i] + s[i + 1..]
  }

  lemma InsertedIs(s: seq<Elem>, loc: nat, i: nat, t: seq<Elem>)
    requires loc <= i < |s| == |t| && t[loc] == s[i]
    requires forall m :: 0 <= m < loc ==> t[m] == s[m]
    requires forall m :: loc < m <= i ==> t[m] == s[m - 1]
    requires forall m :: i < m < |s| ==> t[m] == s[m]
    ensures t == Inserted(s, loc, i)
  {
  }

  /** The shift loop of the insertion sort and the final store. */
  method ShiftInsert(dst: array<Elem>, base: nat, loc: nat, i: nat, x: Elem)
    requires loc <= i && base + i < dst.Length && x == dst[base + i]
    modifies dst
    ensures dst[..] == Inserted(old(dst[..]), base + loc, base + i)
  {
    hide *;
    ghost var s := dst[..];
    var j: int := i - 1;
    while j >= loc
      invariant loc - 1 <= j <= i - 1
      invariant forall m :: 0 <= m <= base + j + 1 ==> dst[m] == s[m]
      invariant forall m :: base + j + 1 < m <= base + i ==> dst[m] == s[m - 1]
      invariant forall m :: base + i < m < dst.Length ==> dst[m] == s[m]
    {
      dst[base + j + 1] := dst[base + j];
      j := j - 1;
    }
    dst[base + loc] := x;
    InsertedIs(s, base + loc, base + i, dst[..]);
  }

  lemma Around(p: seq<Elem>, a: seq<Elem>, x: seq<Elem>, b: seq<Elem>, c: seq<Elem>, q: seq<Elem>)
    ensures (p + a) + x + b + (c + q) == p + (a + x + b + c) + q
  {
  }

  lemma SliceSplit(s: seq<Elem>, base: nat, loc: nat, i: nat, size: nat)
    requires loc <= i < size && base + size <= |s|
    ensures var seg := s[base..base + size];
      && s[..base + loc] == s[..base] + seg[..loc] && seg[i] == s[base + i]
      && s[base + loc..base + i] == seg[loc..i] && s[base + i + 1..] == seg[i + 1..] + s[base + size..]
  {
  }

  lemma InsertedSplit(s: seq<Elem>, base: nat, loc: nat, i: nat, size: nat)
    requires loc <= i < size && base + size <= |s|
    ensures Inserted(s, base + loc, base + i)
         == s[..base] + Inserted(s[base..base + size], loc, i) + s[base + size..]
  {
    var seg := s[base..base + size];
    SliceSplit(s, base, loc, i, size);
    Around(s[..base], seg[..loc], [seg[i]], seg[loc..i], seg[i + 1..], s[base + size..]);
  }

  /** Insertion keeps the keys. */
  lemma InsertedSum(s: seq<Elem>, loc: nat, i: nat)
    requires loc <= i < |s|
    ensures KeySum(Inserted(s, loc, i)) == KeySum(s)
  {
    InsertedParts(s, loc, i);
    SwapSum(s[..loc], s[loc..i], [s[i]], s[i + 1..]);
  }

  lemma InsertedParts(s: seq<Elem>, loc: nat, i: nat)
    requires loc <= i < |s|
    ensures s == s[..loc] + s[loc..i] + [s[i]] + s[i + 1..]
  {
  }

  lemma SwapSum(a: seq<Elem>, b: seq<Elem>, x: seq<Elem>, c: seq<Elem>)
    ensures KeySum(a + b + x + c) == KeySum(a + x + b + c)
  {
    SumOfFour(a, b, x, c);
    SumOfFour(a, x, b, c);
  }

  lemma SumOfFour(a: seq<Elem>, b: seq<Elem>, c: seq<Elem>, d: seq<Elem>)
    ensures KeySum(a + b + c + d) == KeySum(a) + KeySum(b) + KeySum(c) + KeySum(d)
  {
    KeySumConcat(a + b + c, d);
    KeySumConcat(a + b, c);
    KeySumConcat(a, b);
  }

  /** Insertion at the upper bound keeps equal elements in order. */
  lemma InsertedStable(s: seq<Elem>, loc: nat, i: nat)
    requires loc <= i < |s| && forall m :: loc <= m < i ==> s[m].key != s[i].key
    ensures Stable(s, Inserted(s, loc, i))
  {
    var a, x, b, c := s[..loc], [s[i]], s[loc..i], s[i + 1..];
    assert s == a + (b + x) + c;
    assert Inserted(s, loc, i) == a + (x + b) + c;
    forall k ensures Filter(x + b, k) == Filter(b + x, k) {
      FilterConcat(x, b, k);
      FilterConcat(b, x, k);
      One(s[i], k);
      if s[i].key == k { FilterNone(b, k); }
    }
    StableConcat(a, a, b + x, x + b);
    StableConcat(a + (b + x), a + (x + b), c, c);
  }

  lemma InsertedSorted(s: seq<Elem>, loc: nat, i: nat)
    requires loc <= i < |s| && Sorted(s[..i]) && UpperBound(s[..i], s[i].key, loc)
    ensures Sorted(Inserted(s, loc, i)[..i + 1])
  {
    var r := Inserted(s, loc, i)[..i + 1];
    forall p, q | 0 <= p <= q < |r| ensures r[p].key <= r[q].key {
      assert forall m :: 0 <= m <= i ==> r[m] == (if m < loc then s[m] else if m == loc then s[i] else s[m - 1]);
      assert forall m :: 0 <= m < i ==> s[..i][m] == s[m];
    }
  }

  /** One round of the insertion sort: the entry at `i` is shifted into the `i` entries before it. */
  method InsertOne(dst: array<Elem>, base: nat, i: nat, size: nat)
    requires 1 <= i < size && base + size <= dst.Length
    modifies dst
    ensures dst[..base] == old(dst[..base]) && dst[base + size..] == old(dst[base + size..])
    ensures KeySum(dst[base..base + size]) == KeySum(old(dst[base..base + size]))
    ensures Sorted(old(dst[base..base + i])) ==>
              Sorted(dst[base..base + i + 1]) && Stable(old(dst[base..base + size]), dst[base..base + size])
  {
    ghost var before, seg := dst[..], dst[base..base + size];
    assert seg[..i] == dst[base..base + i];
    if Cmp(dst[base + i - 1], dst[base + i]) <= 0 {
      assert Sorted(seg[..i]) ==> Sorted(seg[..i + 1]);
      assert seg[..i + 1] == dst[base..base + i + 1];
      return;
    }
    var x := dst[base + i];
    var loc := BinaryInsertionFind(dst, base, x, i);
    ShiftInsert(dst, base, loc, i, x);
    InsertedSplit(before, base, loc, i, size);
    assert dst[base..base + size] == Inserted(seg, loc, i);
    assert Inserted(seg, loc, i)[..i + 1] == dst[base..base + i + 1];
    InsertStep(seg, loc, i);
  }

  lemma InsertStep(seg: seq<Elem>, loc: nat, i: nat)
    requires loc <= i < |seg|
    requires Sorted(seg[..i]) ==> UpperBound(seg[..i], seg[i].key, loc)
    ensures KeySum(Inserted(seg, loc, i)) == KeySum(seg)
    ensures Sorted(seg[..i]) ==> Sorted(Inserted(seg, loc, i)[..i + 1]) && Stable(seg, Inserted(seg, loc, i))
  {
    InsertedSum(seg, loc, i);
    if Sorted(seg[..i]) {
      InsertedSorted(seg, loc, i);
      assert forall m :: 0 <= m < i ==> seg[..i][m] == seg[m];
      InsertedStable(seg, loc, i);
    }
  }

  /** `binary_insertion_sort_start`: the first `start` entries are taken to be sorted. */
  method BinaryInsertionSortStart(dst: array<Elem>, base: nat, start: nat, size: nat)
    requires 1 <= start <= size && base + size <= dst.Length
    modifies dst
    ensures dst[..base] == old(dst[..base]) && dst[base + size..] == old(dst[base + size..])
    ensures KeySum(dst[base..base + size]) == KeySum(old(dst[base..base + size]))
    ensures Sorted(old(dst[base..base + start])) ==>
              IsStableSort(old(dst[base..base + size]), dst[base..base + size])
  {
    ghost var s, sorted := dst[base..base + size], Sorted(dst[base..base + start]);
    var i := start;
    while i < size
      invariant start <= i <= size
      invariant dst[..base] == old(dst[..base]) && dst[base + size..] == old(dst[base + size..])
      invariant KeySum(dst[base..base + size]) == KeySum(s)
      invariant sorted ==> Sorted(dst[base..base + i]) && Stable(s, dst[base..base + size])
    {
      ghost var seg := dst[base..base + size];
      InsertOne(dst, base, i, size);
      if sorted { StableTransitive(s, seg, dst[base..base + size]); }
      i := i + 1;
    }
  }

  /** `binary_insertion_sort`, which sorts short arrays on its own. */
  method BinaryInsertionSort(dst: array<Elem>, size: nat)
    requires size == dst.Length
    modifies dst
    ensures IsStableSort(old(dst[..]), dst[..])
  {
    if size > 0 {
      ghost var s := dst[..];
      assert dst[0..size] == s && dst[0..1] == [s[0]];
      BinaryInsertionSortStart(dst, 0, 1, size);
      assert dst[0..size] == dst[..];
    }
  }

  // ------------------------------------------------------------ reversal and run counting

  /** `swap_elements` as written: `temp = x; x = y; y = x`, so the first entry is lost. */
  method SwapElements(dst: array<Elem>, x: nat, y: nat)
    requires x < dst.Length && y < dst.Length
    modifies dst
    ensures dst[x] == old(dst[y])
    ensures forall k :: 0 <= k < dst.Length && k != x ==> dst[k] == old(dst[k])
  {
    var temp := dst[x];
    dst[x] := dst[y];
    dst[y] := dst[x];
  }

  /** What `reverse_elements` makes of a range: the upper half mirrored onto the lower half. */
  function Mirrored(s: seq<Elem>): (r: seq<Elem>)
    ensures |r| == |s| && forall k :: 0 <= k < |s| ==> r[k] == MirroredAt(s, k)
  {
    seq(|s|, k requires 0 <= k < |s| => MirroredAt(s, k))
  }

  function MirroredAt(s: seq<Elem>, k: nat): Elem
    requires k < |s|
  {
    if k < |s| / 2 then s[|s| - 1 - k] else s[k]
  }

  method ReverseElements(dst: array<Elem>, first: nat, last: nat)
    requires first <= last < dst.Length
    modifies dst
    ensures dst[..] == old(dst[..first]) + Mirrored(old(dst[first..last + 1])) + old(dst[last + 1..])
  {
    ghost var s := dst[..];
    var start: int := first;
    var end: int := last;
    while start < end
      invariant first <= start <= end + 1 <= last + 1 && start + end == first + last
      invariant forall k :: first <= k < start ==> dst[k] == s[first + last - k]
      invariant forall k :: 0 <= k < first ==> dst[k] == s[k]
      invariant forall k :: start <= k < dst.Length ==> dst[k] == s[k]
      decreases end - start
    {
      SwapElements(dst, start, end);
      start := start + 1;
      end := end - 1;
    }
    IsMirrored(s, first, last, start, dst[..]);
  }

  lemma IsMirrored(s: seq<Elem>, first: nat, last: nat, mid: nat, t: seq<Elem>)
    requires first <= last < |s| == |t| && mid == first + (last + 1 - first) / 2
    requires forall k :: first <= k < mid ==> t[k] == s[first + last - k]
    requires forall k :: 0 <= k < first ==> t[k] == s[k]
    requires forall k :: mid <= k < |s| ==> t[k] == s[k]
    ensures t == s[..first] + Mirrored(s[first..last + 1]) + s[last + 1..]
  {
    var m, part := s[first..last + 1], t[first..last + 1];
    forall k | 0 <= k < |part| ensures part[k] == MirroredAt(m, k) {
      assert part[k] == t[first + k] && m[k] == s[first + k] && m[|m| - 1 - k] == s[last - k];
    }
    assert part == Mirrored(m);
    hide *;
    ThreeParts(t, first, last + 1);
  }

  lemma ThreeParts(t: seq<Elem>, lo: nat, hi: nat)
    requires lo <= hi <= |t|
    ensures t == t[..lo] + t[lo..hi] + t[hi..]
  {
  }

  lemma {:induction false} PointwiseSum(s: seq<Elem>, t: seq<Elem>)
    requires |s| == |t| && forall k :: 0 <= k < |s| ==> t[k].key <= s[k].key
    ensures KeySum(t) <= KeySum(s)
    ensures |s| > 0 && t[0].key < s[0].key ==> KeySum(t) < KeySum(s)
  {
    if s != [] { PointwiseSum(s[..|s| - 1], t[..|t| - 1]); }
  }

  predicate Descending(s: seq<Elem>) {
    forall i, j :: 0 <= i < j < |s| ==> s[i].key > s[j].key
  }

  /** On a strictly descending run of two or more, the mirrored range has a smaller sum of keys. */
  lemma MirrorLoses(s: seq<Elem>)
    requires |s| >= 2 && Descending(s)
    ensures KeySum(Mirrored(s)) < KeySum(s)
  {
    PointwiseSum(s, Mirrored(s));
  }

  /** The range at `start` begins with a strict descent. */
  predicate Descends(s: seq<Elem>, start: nat) {
    start + 1 < |s| && s[start].key > s[start + 1].key
  }

  /** Where the ascending or descending run that `count_run` follows from `c` ends; the last entry is never included. */
  function RunEnd(s: seq<Elem>, c: nat, down: bool): (e: nat)
    requires 1 <= c < |s|
    ensures c <= e < |s|
    decreases |s| - c
  {
    if c == |s| - 1 then c
    else if down == (Cmp(s[c - 1], s[c]) <= 0) then c
    else RunEnd(s, c + 1, down)
  }

  /** The length `count_run` returns. */
  function RunLength(s: seq<Elem>, start: nat): (len: nat)
    requires start < |s|
    ensures 1 <= len <= |s| - start
    ensures Descends(s, start) ==> len >= 2
  {
    if |s| - start == 1 then 1
    else if start >= |s| - 2 then 2
    else RunEnd(s, start + 2, Descends(s, start)) - start
  }

  lemma {:induction false} RunEndIs(s: seq<Elem>, c: nat, down: bool)
    requires 1 <= c < |s|
    ensures var e := RunEnd(s, c, down);
      && (forall i :: c <= i < e ==> (s[i - 1].key > s[i].key <==> down))
      && (e < |s| - 1 ==> (s[e - 1].key > s[e].key <==> !down))
    decreases |s| - c
  {
    if c < |s| - 1 && down != (Cmp(s[c - 1], s[c]) <= 0) {
      RunEndIs(s, c + 1, down);
    }
  }

  /** The run goes one way, as its first step does, and as far as it can, but an array's last entry only ends a run of
      one or two. */
  lemma RunIsLongest(s: seq<Elem>, start: nat)
    requires start < |s|
    ensures var end := start + RunLength(s, start);
      && (forall i :: start < i < end ==> (s[i - 1].key > s[i].key <==> Descends(s, start)))
      && (end < |s| - 1 ==> (s[end - 1].key > s[end].key <==> !Descends(s, start)))
      && (end == |s| <==> start + 2 >= |s|)
  {
    if start + 2 < |s| { RunEndIs(s, start + 2, Descends(s, start)); }
  }

  /** What `count_run` leaves: a descending run mirrored onto itself, anything else as it was. */
  function AfterCount(s: seq<Elem>, start: nat): (t: seq<Elem>)
    requires start < |s|
    ensures |t| == |s|
  {
    var end := start + RunLength(s, start);
    if Descends(s, start) then s[..start] + Mirrored(s[start..end]) + s[end..] else s
  }

  lemma {:induction false} RunEndSorted(s: seq<Elem>, start: nat, c: nat)
    requires start + 2 <= c < |s| && Sorted(s[start..c])
    ensures Sorted(s[start..RunEnd(s, c, false)])
    decreases |s| - c
  {
    if c < |s| - 1 && Cmp(s[c - 1], s[c]) <= 0 {
      var run := s[start..c];
      assert run[|run| - 1] == s[c - 1];
      SortedSnoc(run, s[c]);
      assert s[start..c + 1] == run + [s[c]];
      RunEndSorted(s, start, c + 1);
    }
  }

  lemma DescendingSnoc(run: seq<Elem>, x: Elem)
    requires |run| > 0 && Descending(run) && run[|run| - 1].key > x.key
    ensures Descending(run + [x])
  {
  }

  lemma {:induction false} RunEndDescending(s: seq<Elem>, start: nat, c: nat)
    requires start + 2 <= c < |s| && Descending(s[start..c])
    ensures Descending(s[start..RunEnd(s, c, true)])
    decreases |s| - c
  {
    if c < |s| - 1 && Cmp(s[c - 1], s[c]) > 0 {
      var run := s[start..c];
      assert run[|run| - 1] == s[c - 1];
      DescendingSnoc(run, s[c]);
      assert s[start..c + 1] == run + [s[c]];
      RunEndDescending(s, start, c + 1);
    }
  }

  lemma AscendingRun(s: seq<Elem>, start: nat)
    requires start < |s| && !Descends(s, start)
    ensures Sorted(s[start..start + RunLength(s, start)])
  {
    if start + 2 < |s| {
      assert s[start..start + 2] == [s[start], s[start + 1]];
      RunEndSorted(s, start, start + 2);
    }
  }

  lemma DescendingRun(s: seq<Elem>, start: nat)
    requires start < |s| && Descends(s, start)
    ensures RunLength(s, start) > 1 && Descending(s[start..start + RunLength(s, start)])
  {
    if start + 2 < |s| {
      assert s[start..start + 2] == [s[start], s[start + 1]];
      RunEndDescending(s, start, start + 2);
    }
  }

  lemma Spliced(s: seq<Elem>, lo: nat, hi: nat, m: seq<Elem>)
    requires lo <= hi <= |s| && |m| == hi - lo
    ensures var t := s[..lo] + m + s[hi..]; t[..lo] == s[..lo] && t[lo..hi] == m && t[hi..] == s[hi..]
  {
  }

  lemma MirroredInPlace(s: seq<Elem>, lo: nat, hi: nat, t: seq<Elem>)
    requires lo <= hi <= |s| && Descending(s[lo..hi]) && hi - lo > 1
    requires t == s[..lo] + Mirrored(s[lo..hi]) + s[hi..]
    ensures t[..lo] == s[..lo] && t[hi..] == s[hi..] && KeySum(t[lo..hi]) < KeySum(s[lo..hi])
  {
    hide *;
    MirrorLoses(s[lo..hi]);
    Spliced(s, lo, hi, Mirrored(s[lo..hi]));
  }

  lemma CountedDescent(s: seq<Elem>, start: nat)
    requires start < |s| && Descends(s, start)
    ensures var t, end := AfterCount(s, start), start + RunLength(s, start);
      t[..start] == s[..start] && t[end..] == s[end..] && KeySum(t[start..end]) < KeySum(s[start..end])
  {
    hide RunLength, Mirrored, KeySum, Descending, Descends;
    assert AfterCount(s, start) ==
      s[..start] + Mirrored(s[start..start + RunLength(s, start)]) + s[start + RunLength(s, start)..];
    DescendingRun(s, start);
    hide *;
    MirroredInPlace(s, start, start + RunLength(s, start), AfterCount(s, start));
  }

  /** A counted run is sorted and untouched, or it was strictly descending and has lost keys. */
  lemma CountedRun(s: seq<Elem>, start: nat)
    requires start < |s|
    ensures var t, end := AfterCount(s, start), start + RunLength(s, start);
      && t[..start] == s[..start] && t[end..] == s[end..]
      && if Descends(s, start) then KeySum(t[start..end]) < KeySum(s[start..end])
         else t == s && Sorted(t[start..end])
  {
    if Descends(s, start) {
      hide *;
      CountedDescent(s, start);
    } else {
      assert AfterCount(s, start) == s;
      hide *;
      AscendingRun(s, start);
    }
  }

  /** The two-element tail of `count_run`. */
  method CountPair(dst: array<Elem>, start: nat)
    requires start + 2 == dst.Length
    modifies dst
    ensures dst[..] == AfterCount(old(dst[..]), start)
  {
    ghost var s := dst[..];
    if Cmp(dst[start], dst[start + 1]) > 0 {
      SwapElements(dst, start, start + 1);
      ghost var pair := s[start..start + 2];
      assert pair[0] == s[start] && pair[1] == s[start + 1];
      assert dst[start..] == Mirrored(pair);
      assert dst[..] == dst[..start] + dst[start..];
    }
  }

  method FollowRun(dst: array<Elem>, start: nat, down: bool) returns (curr: nat)
    requires start + 2 < dst.Length
    ensures curr == RunEnd(dst[..], start + 2, down)
  {
    ghost var s := dst[..];
    curr := start + 2;
    while curr != dst.Length - 1 && (Cmp(dst[curr - 1], dst[curr]) <= 0) != down
      invariant start + 2 <= curr < dst.Length
      invariant RunEnd(s, start + 2, down) == RunEnd(s, curr, down)
      decreases dst.Length - curr
    {
      curr := curr + 1;
    }
  }

  /** `count_run`. */
  method CountRun(dst: array<Elem>, start: nat) returns (len: nat)
    requires start < dst.Length
    modifies dst
    ensures len == RunLength(old(dst[..]), start) && dst[..] == AfterCount(old(dst[..]), start)
  {
    var size := dst.Length;
    if size - start == 1 {
      len := 1;
    } else if start >= size - 2 {
      CountPair(dst, start);
      len := 2;
    } else if Cmp(dst[start], dst[start + 1]) <= 0 {
      var curr := FollowRun(dst, start, false);
      len := curr - start;
    } else {
      var curr := FollowRun(dst, start, true);
      ReverseElements(dst, start, curr - 1);
      len := curr - start;
    }
  }
}
