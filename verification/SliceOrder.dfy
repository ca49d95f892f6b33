/** Which examples the partition of src/parser.cc cuts right: `setup_example` searches without asking whether the
    features are sorted, and nothing sorts them unless `--sort_features` or the cache does. */
module SliceOrder {
  import opened Modulus
  import opened Features
  import opened Partition

  /** The same features with other values. */
  ghost predicate SameIndices(a: seq<Feature>, b: seq<Feature>) {
    |a| == |b| && forall i :: 0 <= i < |a| ==> a[i].idx == b[i].idx
  }

  ghost predicate SameShape(a: seq<seq<Feature>>, b: seq<seq<Feature>>) {
    |a| == |b| && forall n :: 0 <= n < |a| ==> SameIndices(a[n], b[n])
  }

  /** Whatever the weights and the feature values, the threads' predictions add up to the whole one. */
  ghost predicate AddsUp(nss: seq<seq<Feature>>, E: nat, T: nat)
    requires E > 0 && T > 0
  {
    forall w: seq<real>, v :: |w| == Base(T, E) && |w| > 0 && SameShape(v, nss) ==>
      SumOfParts(w, v, E, T) == PredictAll(w, v)
  }

  lemma {:induction false} SearchSame(a: seq<Feature>, b: seq<Feature>, begin: nat, value: nat, end: nat)
    requires begin < end <= |a| && SameIndices(a, b)
    ensures Search(a, begin, value, end) == Search(b, begin, value, end)
    decreases end - begin
  {
    if end - begin > 1 {
      var middle := begin + (end - begin) / 2;
      if a[middle].idx >= value {
        SearchSame(a, b, begin, value, middle);
      } else {
        SearchSame(a, b, middle, value, end);
      }
    }
  }

  lemma {:induction false} CutSame(a: seq<Feature>, b: seq<Feature>, E: nat, k: nat)
    requires SameIndices(a, b)
    ensures Cut(a, E, k) == Cut(b, E, k)
  {
    if k > 0 {
      CutSame(a, b, E, k - 1);
      if |a| > Cut(a, E, k - 1) { SearchSame(a, b, Cut(a, E, k - 1), Base(k, E), |a|); }
    }
  }

  // ------------------------------------------------------------ the part an entry falls into

  lemma {:induction false} PartOfEntry(fs: seq<Feature>, E: nat, n: nat, i: nat) returns (k: nat)
    requires i < Cut(fs, E, n)
    ensures k < n && Cut(fs, E, k) <= i < Cut(fs, E, k + 1)
    decreases n
  {
    assert n > 0;
    hide *;
    k := n - 1;
    if i < Cut(fs, E, k) { k := PartOfEntry(fs, E, k, i); }
  }

  lemma PartsApart(fs: seq<Feature>, E: nat, j: nat, k: nat, i: nat)
    requires Cut(fs, E, j) <= i < Cut(fs, E, j + 1) && Cut(fs, E, k) <= i < Cut(fs, E, k + 1)
    ensures j == k
  {
    hide Cut;
    if j < k { CutsRise(fs, E, j + 1, k); }
    if k < j { CutsRise(fs, E, k + 1, j); }
  }

  /** Of two entries in the wrong order, one falls into another thread's part. */
  lemma OneMisplaced(fs: seq<Feature>, E: nat, i: nat, j: nat, k: nat, l: nat)
    requires E > 0 && i <= j < |fs| && PartOf(fs[i], E) > PartOf(fs[j], E)
    requires Cut(fs, E, k) <= i < Cut(fs, E, k + 1) && Cut(fs, E, l) <= j < Cut(fs, E, l + 1)
    ensures PartOf(fs[i], E) != k || PartOf(fs[j], E) != l
  {
    hide Cut, PartOf;
    if l < k { CutsRise(fs, E, l + 1, k); }
  }

  lemma SomeMisplaced(fs: seq<Feature>, E: nat, T: nat) returns (p: nat, k: nat)
    requires E > 0 && Within(fs, 0, Base(T, E)) && !InSliceOrder(fs, E)
    ensures p < |fs| && k < T && Cut(fs, E, k) <= p < Cut(fs, E, k + 1) && PartOf(fs[p], E) != k
  {
    hide PartOf, Cut, Base, Within;
    var i, j :| 0 <= i <= j < |fs| && PartOf(fs[i], E) > PartOf(fs[j], E);
    hide *;
    LastCutIsEnd(fs, E, T);
    p := i;
    k := PartOfEntry(fs, E, T, i);
    var l := PartOfEntry(fs, E, T, j);
    OneMisplaced(fs, E, i, j, k, l);
    if PartOf(fs[i], E) == k { p, k := j, l; }
  }

  // ------------------------------------------------------------ one feature, one weight

  /** Value one at one place, zero everywhere else. */
  function OnlyOne(nss: seq<seq<Feature>>, n: nat, p: nat): (v: seq<seq<Feature>>)
    requires n < |nss| && p < |nss[n]|
    ensures |v| == |nss|
    ensures forall m :: 0 <= m < |v| ==> |v[m]| == |nss[m]| && forall i :: 0 <= i < |v[m]| ==>
              v[m][i] == Feature(if m == n && i == p then 1.0 else 0.0, nss[m][i].idx)
  {
    seq(|nss|, m requires 0 <= m < |nss| =>
      seq(|nss[m]|, i requires 0 <= i < |nss[m]| => Feature(if m == n && i == p then 1.0 else 0.0, nss[m][i].idx)))
  }

  function UnitWeight(size: nat, at: nat): (w: seq<real>)
    ensures |w| == size && forall i :: 0 <= i < size ==> w[i] == (if i == at then 1.0 else 0.0)
  {
    seq(size, i => if i == at then 1.0 else 0.0)
  }

  /** At most one entry contributes. */
  lemma {:induction false} SdAddSingle(w: seq<real>, fs: seq<Feature>, p: int)
    requires |w| > 0 && forall i :: 0 <= i < |fs| && i != p ==> Term(w, fs[i]) == 0.0
    ensures SdAdd(w, fs) == (if 0 <= p < |fs| then Term(w, fs[p]) else 0.0)
  {
    if fs != [] { SdAddSingle(w, fs[..|fs| - 1], p); }
  }

  lemma {:induction false} PredictSingle(w: seq<real>, nss: seq<seq<Feature>>, n: int, p: nat)
    requires |w| > 0 && (0 <= n < |nss| ==> p < |nss[n]|)
    requires forall m, i :: 0 <= m < |nss| && 0 <= i < |nss[m]| && !(m == n && i == p) ==> Term(w, nss[m][i]) == 0.0
    ensures PredictAll(w, nss) == (if 0 <= n < |nss| then Term(w, nss[n][p]) else 0.0)
  {
    if nss != [] {
      var last := |nss| - 1;
      PredictSingle(w, nss[..last], n, p);
      SdAddSingle(w, nss[last], if n == last then p else -1);
    }
  }

  lemma {:induction false} InlineNothing(slice: seq<real>, nss: seq<seq<Feature>>, k: nat)
    requires |slice| > 0
    requires forall m, i :: 0 <= m < |nss| && 0 <= i < |Part(nss[m], |slice|, k)| ==>
               Term(slice, Part(nss[m], |slice|, k)[i]) == 0.0
    ensures InlinePredict(slice, nss, k) == 0.0
  {
    if nss != [] {
      var last := |nss| - 1;
      InlineNothing(slice, nss[..last], k);
      SdAddSingle(slice, Part(nss[last], |slice|, k), -1);
    }
  }

  lemma {:induction false} SumNothing(w: seq<real>, nss: seq<seq<Feature>>, E: nat, n: nat)
    requires E > 0 && Base(n, E) <= |w|
    requires forall k :: 0 <= k < n ==> Base(k, E) + E <= |w| && InlinePredict(Slice(w, E, k), nss, k) == 0.0
    ensures SumOfParts(w, nss, E, n) == 0.0
  {
    if n > 0 { SumNothing(w, nss, E, n - 1); }
  }

  /** The thread that gets the misplaced entry looks up another weight. */
  lemma WrongWeight(w: seq<real>, E: nat, k: nat, idx: nat)
    requires E > 0 && Base(k, E) + E <= |w| && idx < |w| && w == UnitWeight(|w|, idx) && idx / E != k
    ensures Slice(w, E, k)[idx % E] == 0.0
  {
    var at := Base(k, E) + idx % E;
    BaseIsProduct(k, E);
    DivModUnique(at, E, k, idx % E);
    assert at != idx;
    assert Slice(w, E, k)[idx % E] == w[at];
  }

  lemma PartEntry(a: seq<Feature>, b: seq<Feature>, E: nat, k: nat, i: nat)
    requires SameIndices(a, b) && i < |Part(a, E, k)|
    ensures var at := Cut(b, E, k) + i; at < |a| && at < Cut(b, E, k + 1) && Part(a, E, k)[i] == a[at]
  {
    CutSame(a, b, E, k);
    CutSame(a, b, E, k + 1);
  }

  lemma ZeroTerm(w: seq<real>, f: Feature)
    requires |w| > 0 && (f.x == 0.0 || w[f.idx % |w|] == 0.0)
    ensures Term(w, f) == 0.0
  {
  }

  /** Whatever thread looks, the entry with value one is not in its part or meets a weight of zero there. */
  lemma EntrySeesNothing(nss: seq<seq<Feature>>, E: nat, w: seq<real>, n: nat, p: nat, k0: nat, k: nat, m: nat, i: nat)
    requires E > 0 && n < |nss| && p < |nss[n]| && Base(k, E) + E <= |w|
    requires nss[n][p].idx < |w| && w == UnitWeight(|w|, nss[n][p].idx)
    requires Cut(nss[n], E, k0) <= p < Cut(nss[n], E, k0 + 1) && PartOf(nss[n][p], E) != k0
    requires m < |nss| && i < |Part(OnlyOne(nss, n, p)[m], E, k)|
    ensures Term(Slice(w, E, k), Part(OnlyOne(nss, n, p)[m], E, k)[i]) == 0.0
  {
    hide Cut, Base, Part, Term, Slice;
    var at := Cut(nss[m], E, k) + i;
    PartEntry(OnlyOne(nss, n, p)[m], nss[m], E, k, i);
    if m == n && at == p {
      PartsApart(nss[n], E, k0, k, p);
      WrongWeight(w, E, k, nss[n][p].idx);
    }
    ZeroTerm(Slice(w, E, k), OnlyOne(nss, n, p)[m][at]);
  }

  lemma ThreadSeesNothing(nss: seq<seq<Feature>>, E: nat, T: nat, n: nat, p: nat, k0: nat, k: nat)
    requires E > 0 && n < |nss| && p < |nss[n]| && k < T && nss[n][p].idx < Base(T, E)
    requires Cut(nss[n], E, k0) <= p < Cut(nss[n], E, k0 + 1) && PartOf(nss[n][p], E) != k0
    ensures Base(k, E) + E <= Base(T, E)
    ensures var w := UnitWeight(Base(T, E), nss[n][p].idx);
      InlinePredict(Slice(w, E, k), OnlyOne(nss, n, p), k) == 0.0
  {
    SliceFits(E, k, T);
    hide Cut, Base, Part, Term, Slice;
    var w := UnitWeight(Base(T, E), nss[n][p].idx);
    var v, slice := OnlyOne(nss, n, p), Slice(w, E, k);
    forall m, i | 0 <= m < |v| && 0 <= i < |Part(v[m], |slice|, k)|
      ensures Term(slice, Part(v[m], |slice|, k)[i]) == 0.0
    {
      EntrySeesNothing(nss, E, w, n, p, k0, k, m, i);
    }
    InlineNothing(slice, v, k);
  }

  /** Out of slice order, some values and weights make the threads predict something else. */
  lemma Misplaced(nss: seq<seq<Feature>>, E: nat, T: nat) returns (w: seq<real>, v: seq<seq<Feature>>)
    requires E > 0 && T > 0 && (forall n :: 0 <= n < |nss| ==> Within(nss[n], 0, Base(T, E)))
    requires !Ordered(nss, E, Base(T, E))
    ensures |w| == Base(T, E) && |w| > 0 && SameShape(v, nss)
    ensures PredictAll(w, v) == 1.0 && SumOfParts(w, v, E, T) == 0.0
  {
    var n :| 0 <= n < |nss| && !InSliceOrder(nss[n], E);
    var p, k0 := SomeMisplaced(nss[n], E, T);
    w, v := UnitWeight(Base(T, E), nss[n][p].idx), OnlyOne(nss, n, p);
    OffsetInSlice(nss[n][p].idx, |w|, 0);
    PredictSingle(w, v, n, p);
    forall k | 0 <= k < T ensures Base(k, E) + E <= |w| && InlinePredict(Slice(w, E, k), v, k) == 0.0 {
      ThreadSeesNothing(nss, E, T, n, p, k0, k);
    }
    SumNothing(w, v, E, T);
  }

  lemma SameShapeOrdered(a: seq<seq<Feature>>, b: seq<seq<Feature>>, E: nat, size: nat)
    requires E > 0 && SameShape(a, b) && Ordered(b, E, size)
    ensures Ordered(a, E, size)
  {
    forall n | 0 <= n < |a| ensures InSliceOrder(a[n], E) && Within(a[n], 0, size) {
      assert SameIndices(a[n], b[n]);
    }
  }

  /**
   * The partition computes the whole prediction, for all weights and values, exactly when every namespace comes
   * slice by slice.
   */
  lemma AddsUpIff(nss: seq<seq<Feature>>, E: nat, T: nat)
    requires E > 0 && T > 0 && forall n :: 0 <= n < |nss| ==> Within(nss[n], 0, Base(T, E))
    ensures AddsUp(nss, E, T) <==> Ordered(nss, E, Base(T, E))
  {
    if Ordered(nss, E, Base(T, E)) {
      forall w: seq<real>, v | |w| == Base(T, E) && |w| > 0 && SameShape(v, nss)
        ensures SumOfParts(w, v, E, T) == PredictAll(w, v)
      {
        SameShapeOrdered(v, nss, E, Base(T, E));
        PartitionedPrediction(w, v, E, T);
      }
    } else {
      var w, v := Misplaced(nss, E, T);
    }
  }

  /** One thread has one slice, so any order will do. */
  lemma OneThreadInOrder(nss: seq<seq<Feature>>, E: nat)
    requires E > 0 && forall n :: 0 <= n < |nss| ==> Within(nss[n], 0, Base(1, E))
    ensures Ordered(nss, E, Base(1, E))
  {
    forall n | 0 <= n < |nss| ensures InSliceOrder(nss[n], E) {
      forall i | 0 <= i < |nss[n]| ensures PartOf(nss[n][i], E) == 0 {
        SliceBelow(nss[n][i].idx, E, 1);
      }
    }
  }

  /** Two features, two threads of one weight each: in the wrong order both go to the first thread. */
  lemma TwoSwapped(a: Feature, b: Feature)
    requires a.idx == 1 && b.idx == 0
    ensures Cut([a, b], 1, 1) == 2 && !AddsUp([[a, b]], 1, 2)
  {
    var fs := [a, b];
    assert Base(1, 1) == 1 && Base(2, 1) == 2;
    assert Search(fs, 0, 1, 2) == Search(fs, 1, 1, 2) == 2;
    AddsUpIff([fs], 1, 2);
    assert PartOf(fs[0], 1) > PartOf(fs[1], 1);
    assert !InSliceOrder([[a, b]][0], 1);
  }
}
