/** Sorting and compacting the features of a namespace (src/unique_sort.cc), and what the `sorted` flag means. */
module UniqueSort {
  import opened Basics
  import opened CacheCodec

  /** `order_features`: the 32-bit difference, returned as a signed `int`. */
  function Compare(a: Word, b: Word): int {
    Signed((a - b) % WORD)
  }

  /** The comparator orders a pair correctly if and only if the true difference fits in 32 signed bits. */
  lemma CompareIff(a: Word, b: Word)
    ensures (Compare(a, b) < 0 <==> a < b) <==> -0x8000_0000 <= a - b < 0x8000_0000
    ensures Compare(a, b) == 0 <==> a == b
  {
  }

  /** Beyond that it is not even an order: three indices can each precede the next around a circle. */
  lemma CompareCycles()
    ensures Compare(0, 0x5555_5555) < 0 && Compare(0x5555_5555, 0xAAAA_AAAA) < 0 && Compare(0xAAAA_AAAA, 0) < 0
  {
  }

  /** A list `qsort` may leave: no entry compares above its right neighbour. */
  predicate InQsortOrder(fs: seq<Feature>) {
    forall i :: 0 <= i && i + 1 < |fs| ==> Compare(fs[i].idx, fs[i + 1].idx) <= 0
  }

  predicate Small(fs: seq<Feature>) {
    forall i :: 0 <= i < |fs| ==> fs[i].idx < 0x8000_0000
  }

  /** `unique_features`: of every group of neighbours with one index the first stays. */
  function Unique(fs: seq<Feature>): (r: seq<Feature>)
    ensures |r| <= |fs| && (fs != [] ==> r != [])
  {
    if |fs| <= 1 then fs
    else if fs[|fs| - 1].idx != fs[|fs| - 2].idx then Unique(fs[..|fs| - 1]) + [fs[|fs| - 1]]
    else Unique(fs[..|fs| - 1])
  }

  /** An entry stays when its left neighbour, if it has one, has another index. */
  predicate BeginsGroup(fs: seq<Feature>, i: nat) {
    i < |fs| && (i == 0 || fs[i].idx != fs[i - 1].idx)
  }

  /** The positions of the entries that begin a group. */
  function Begins(fs: seq<Feature>): (at: seq<nat>)
    ensures forall k :: 0 <= k < |at| ==> at[k] < |fs|
  {
    if fs == [] then []
    else if BeginsGroup(fs, |fs| - 1) then Begins(fs[..|fs| - 1]) + [|fs| - 1]
    else Begins(fs[..|fs| - 1])
  }

  lemma {:induction false} BeginsRise(fs: seq<Feature>)
    ensures forall k, m :: 0 <= k < m < |Begins(fs)| ==> Begins(fs)[k] < Begins(fs)[m]
    ensures forall i :: i in Begins(fs) <==> BeginsGroup(fs, i)
  {
    if fs != [] {
      var front := fs[..|fs| - 1];
      BeginsRise(front);
      assert forall i: nat :: i < |front| ==> (BeginsGroup(fs, i) <==> BeginsGroup(front, i));
    }
  }

  /** What is left are the entries that begin a group, in order. */
  lemma {:induction false} KeepsFirst(fs: seq<Feature>)
    ensures |Unique(fs)| == |Begins(fs)|
    ensures forall k :: 0 <= k < |Begins(fs)| ==> Unique(fs)[k] == fs[Begins(fs)[k]]
  {
    if |fs| > 1 {
      KeepsFirst(fs[..|fs| - 1]);
    }
  }

  lemma {:induction false} UniqueLast(fs: seq<Feature>)
    requires fs != []
    ensures Unique(fs)[|Unique(fs)| - 1].idx == fs[|fs| - 1].idx
  {
    if |fs| > 1 {
      var front := fs[..|fs| - 1];
      UniqueLast(front);
      assert front[|front| - 1] == fs[|fs| - 2];
    }
  }

  lemma UniqueStep(fs: seq<Feature>, c: nat)
    requires 0 < c < |fs|
    ensures Unique(fs[..c + 1]) == if fs[c].idx != fs[c - 1].idx then Unique(fs[..c]) + [fs[c]] else Unique(fs[..c])
  {
    assert fs[..c + 1][..c] == fs[..c];
  }

  lemma UniqueStart(fs: seq<Feature>)
    ensures Unique(fs[..0]) == [] && (fs != [] ==> Unique(fs[..1]) == [fs[0]])
  {
  }

  /** The loop: `last` is the last entry kept, `current` the entry looked at. */
  method UniqueLoop(a: array<Feature>, size: nat, ghost fs: seq<Feature>) returns (last: nat, ghost kept: seq<Feature>)
    requires 0 < size == |fs| <= a.Length && forall k :: 0 <= k < size ==> a[k] == fs[k]
    modifies a
    ensures last < size && |kept| == last + 1 && kept == Unique(fs)
    ensures forall k :: 0 <= k <= last ==> a[k] == kept[k]
    ensures forall k :: last < k < a.Length ==> a[k] == old(a[k])
  {
    UniqueStart(fs);
    hide *;
    last, kept := 0, [fs[0]];
    for current := 1 to size
      invariant last < current <= size && |kept| == last + 1 && kept == Unique(fs[..current])
      invariant kept[last].idx == fs[current - 1].idx
      invariant forall k :: 0 <= k <= last ==> a[k] == kept[k]
      invariant forall k :: last < k < a.Length ==> a[k] == old(a[k])
    {
      UniqueStep(fs, current);
      assert a[current] == fs[current] && a[last] == kept[last];
      if a[current].idx != a[last].idx {
        last, kept := last + 1, kept + [fs[current]];
        a[last] := a[current];
      }
    }
    assert fs[..size] == fs;
  }

  /** The pass in place. */
  method UniqueFeatures(a: array<Feature>, size: nat) returns (end: nat)
    requires size <= a.Length
    modifies a
    ensures end <= size && a[..end] == Unique(old(a[..size]))
    ensures forall k :: end <= k < a.Length ==> a[k] == old(a[k])
  {
    if size == 0 {
      return 0;
    }
    ghost var kept;
    hide *;
    end, kept := UniqueLoop(a, size, a[..size]);
    end := end + 1;
    assert a[..end] == kept;
  }

  predicate Increasing(fs: seq<Feature>) {
    forall i, j :: 0 <= i < j < |fs| ==> fs[i].idx < fs[j].idx
  }

  lemma {:induction false} OrderedRises(fs: seq<Feature>, i: nat, j: nat)
    requires InQsortOrder(fs) && Small(fs) && i <= j < |fs|
    ensures fs[i].idx <= fs[j].idx
    decreases j - i
  {
    if i < j {
      OrderedRises(fs, i, j - 1);
      CompareIff(fs[j - 1].idx, fs[j].idx);
      assert Compare(fs[j - 1].idx, fs[j - 1 + 1].idx) <= 0;
    }
  }

  function Indices(fs: seq<Feature>): (s: set<Word>) {
    set i | 0 <= i < |fs| :: fs[i].idx
  }

  lemma SameIndices(front: seq<Feature>, x: Feature)
    ensures Indices(front + [x]) == Indices(front) + {x.idx}
  {
    var all := front + [x];
    forall v | v in Indices(front) ensures v in Indices(all) {
      var i :| 0 <= i < |front| && front[i].idx == v;
      assert all[i].idx == v;
    }
    assert all[|front|].idx == x.idx;
    forall v | v in Indices(all) ensures v in Indices(front) + {x.idx} {
      var i :| 0 <= i < |all| && all[i].idx == v;
      assert i < |front| ==> front[i].idx == v;
    }
  }

  lemma IndexIn(fs: seq<Feature>, i: nat)
    requires i < |fs|
    ensures fs[i].idx in Indices(fs)
  {
  }

  lemma QsortFront(fs: seq<Feature>)
    requires InQsortOrder(fs) && fs != []
    ensures InQsortOrder(fs[..|fs| - 1])
  {
    var front := fs[..|fs| - 1];
    forall i | 0 <= i && i + 1 < |front| ensures Compare(front[i].idx, front[i + 1].idx) <= 0 {
      assert Compare(fs[i].idx, fs[i + 1].idx) <= 0;
    }
  }

  lemma IncreasingSnoc(front: seq<Feature>, x: Feature)
    requires Increasing(front) && (front != [] ==> front[|front| - 1].idx < x.idx)
    ensures Increasing(front + [x])
  {
  }

  /** What is left of an ordered list is strictly increasing. */
  lemma {:induction false} UniqueIsIncreasing(fs: seq<Feature>)
    requires InQsortOrder(fs) && Small(fs)
    ensures Increasing(Unique(fs))
  {
    if |fs| > 1 {
      var n := |fs| - 1;
      var front := fs[..n];
      QsortFront(fs);
      OrderedRises(fs, n - 1, n);
      UniqueIsIncreasing(front);
      UniqueLast(front);
      hide InQsortOrder, Compare, Increasing;
      if fs[n].idx != fs[n - 1].idx {
        IncreasingSnoc(Unique(front), fs[n]);
      }
    }
  }

  /** The pass drops no index, in whatever order the list is. */
  lemma {:induction false} UniqueIndices(fs: seq<Feature>)
    ensures Indices(Unique(fs)) == Indices(fs)
  {
    if |fs| > 1 {
      var n := |fs| - 1;
      var front, x := fs[..n], fs[n];
      UniqueIndices(front);
      IndexIn(front, n - 1);
      SameIndices(front, x);
      SameIndices(Unique(front), x);
      hide Indices;
      assert fs == front + [x];
    }
  }

  /** And every entry left is one that was there. */
  lemma {:induction false} UniqueIsSubset(fs: seq<Feature>)
    ensures forall f :: f in Unique(fs) ==> f in fs
  {
    if |fs| > 1 {
      UniqueIsSubset(fs[..|fs| - 1]);
    }
  }

  lemma {:induction false} IncreasingIsNonDecreasing(fs: seq<Feature>, last: Word)
    requires Increasing(fs) && (fs != [] ==> last <= fs[0].idx)
    ensures NonDecreasing(fs, last)
  {
    if fs != [] {
      IncreasingIsNonDecreasing(fs[1..], fs[0].idx);
    }
  }

  /** `t` is a possible result of `qsort` on `s`. */
  predicate SortResult(s: seq<Feature>, t: seq<Feature>) {
    multiset(t) == multiset(s) && InQsortOrder(t)
  }

  lemma PermutationIndices(s: seq<Feature>, t: seq<Feature>)
    requires multiset(t) == multiset(s)
    ensures Indices(t) == Indices(s)
    ensures forall i :: 0 <= i < |t| ==> t[i] in s
  {
    forall f ensures f in t <==> f in s {
      assert f in t <==> f in multiset(t);
      assert f in s <==> f in multiset(s);
    }
    forall v ensures v in Indices(t) <==> v in Indices(s) {
      if v in Indices(t) {
        var i :| 0 <= i < |t| && t[i].idx == v;
        assert t[i] in s;
      }
      if v in Indices(s) {
        var i :| 0 <= i < |s| && s[i].idx == v;
        assert s[i] in t;
      }
    }
  }

  /**
   * Whatever order `qsort` leaves equal indices in, the pass gives a strictly increasing list with the index
   * set of the input.
   */
  lemma SortThenUnique(s: seq<Feature>, t: seq<Feature>)
    requires Small(s) && SortResult(s, t)
    ensures Increasing(Unique(t)) && Indices(Unique(t)) == Indices(s)
    ensures NonDecreasing(Unique(t), 0)
  {
    PermutationIndices(s, t);
    UniqueIsIncreasing(t);
    UniqueIndices(t);
    IncreasingIsNonDecreasing(Unique(t), 0);
  }

  /** A nondecreasing list satisfies the precondition of the partition into weight slices. */
  lemma {:induction false} NonDecreasingPairs(fs: seq<Feature>, last: Word, i: nat, j: nat)
    requires NonDecreasing(fs, last) && i <= j < |fs|
    ensures last <= fs[i].idx <= fs[j].idx
    decreases |fs|
  {
    if i > 0 {
      NonDecreasingPairs(fs[1..], fs[0].idx, i - 1, j - 1);
    } else if j > 0 {
      NonDecreasingPairs(fs[1..], fs[0].idx, 0, j - 1);
    }
  }

  lemma {:induction false} PairsNonDecreasing(fs: seq<Feature>, last: Word)
    requires forall i, j :: 0 <= i <= j < |fs| ==> fs[i].idx <= fs[j].idx
    requires fs != [] ==> last <= fs[0].idx
    ensures NonDecreasing(fs, last)
  {
    if fs != [] {
      var rest := fs[1..];
      assert forall i :: 0 <= i < |rest| ==> rest[i] == fs[i + 1];
      PairsNonDecreasing(rest, fs[0].idx);
    }
  }

  lemma {:induction false} AllNonDecreasingAt(ns: seq<Namespace>, n: nat)
    requires AllNonDecreasing(ns) && n < |ns|
    ensures NonDecreasing(ns[n].fs, 0)
  {
    if n > 0 { AllNonDecreasingAt(ns[1..], n - 1); }
  }

  lemma {:induction false} AllNonDecreasingFrom(ns: seq<Namespace>)
    requires forall n :: 0 <= n < |ns| ==> NonDecreasing(ns[n].fs, 0)
    ensures AllNonDecreasing(ns)
  {
    if ns != [] { AllNonDecreasingFrom(ns[1..]); }
  }

  predicate Below(fs: seq<Feature>, M: nat) {
    forall i :: 0 <= i < |fs| ==> fs[i].idx < M
  }

  lemma BelowMask(fs: seq<Feature>, M: nat)
    requires 0 < M <= WORD && Below(fs, M)
    ensures Masked(fs, M) == fs
  {
    forall i | 0 <= i < |fs| ensures Masked(fs, M)[i] == fs[i] {
      assert fs[i].idx % M == fs[i].idx by { SmallMod(fs[i].idx, M); }
    }
  }

  lemma SmallMod(x: nat, M: nat)
    requires x < M
    ensures x % M == x
  {
  }

  lemma {:induction false} MaskedSame(ns: seq<Namespace>, M: nat)
    requires 0 < M <= WORD && forall n :: 0 <= n < |ns| ==> Below(ns[n].fs, M)
    ensures MaskedAll(ns, M) == ns
  {
    hide Below, Masked;
    if ns != [] {
      MaskedSame(ns[1..], M);
      BelowMask(ns[0].fs, M);
      assert ns == [ns[0]] + ns[1..];
    }
  }

  /**
   * The flag end to end: at the width the cache was written with, a section comes back with `sorted` still set exactly
   * when every namespace is nondecreasing, as sorted and compacted namespaces are.
   */
  lemma SortedFlagIsSound(ns: seq<Namespace>, M: nat, rest: seq<Byte>)
    requires 0 < M <= WORD && Cacheable(ns) && |ns| < 256
    requires forall n :: 0 <= n < |ns| ==> Below(ns[n].fs, M)
    ensures DecodeSection(EncodeSection(ns) + rest, M).Some?
    ensures var r := DecodeSection(EncodeSection(ns) + rest, M).value;
      && r.ns == ns && r.used == |EncodeSection(ns)|
      && (r.sorted <==> forall n, i, j :: 0 <= n < |ns| && 0 <= i <= j < |ns[n].fs| ==>
                         r.ns[n].fs[i].idx <= r.ns[n].fs[j].idx)
      && ((forall n :: 0 <= n < |ns| ==> Increasing(ns[n].fs)) ==> r.sorted)
  {
    SectionRoundTrip(ns, M, rest);
    MaskedSame(ns, M);
    hide DecodeSection, EncodeSection, Cacheable;
    if AllNonDecreasing(ns) {
      forall n, i, j | 0 <= n < |ns| && 0 <= i <= j < |ns[n].fs| ensures ns[n].fs[i].idx <= ns[n].fs[j].idx {
        AllNonDecreasingAt(ns, n);
        NonDecreasingPairs(ns[n].fs, 0, i, j);
      }
    }
    if forall n, i, j :: 0 <= n < |ns| && 0 <= i <= j < |ns[n].fs| ==> ns[n].fs[i].idx <= ns[n].fs[j].idx {
      forall n | 0 <= n < |ns| ensures NonDecreasing(ns[n].fs, 0) {
        PairsNonDecreasing(ns[n].fs, 0);
      }
      AllNonDecreasingFrom(ns);
    }
    if forall n :: 0 <= n < |ns| ==> Increasing(ns[n].fs) {
      forall n, i, j | 0 <= n < |ns| && 0 <= i <= j < |ns[n].fs| ensures ns[n].fs[i].idx <= ns[n].fs[j].idx {
        assert i < j ==> ns[n].fs[i].idx < ns[n].fs[j].idx;
      }
    }
  }
}
