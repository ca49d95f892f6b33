/** How an example is cut into per-thread ranges (`search` and `setup_example` in src/parser.cc)
    and why the per-thread sums and updates add up to the whole ones (src/gd.cc). */
module Partition {
  import opened Modulus
  import opened Features

  /** `search`: pure recursion over positions; `end` is never dereferenced. */
  function Search(fs: seq<Feature>, begin: nat, value: nat, end: nat): (r: nat)
    requires begin < end <= |fs|
    ensures begin <= r <= end
    decreases end - begin
  {
    var diff := end - begin;
    if diff <= 1 then
      if fs[begin].idx >= value then begin else end
    else
      var middle := begin + diff / 2;
      if fs[middle].idx >= value then Search(fs, begin, value, middle)
      else Search(fs, middle, value, end)
  }

  /** In whatever order the features are, the result is a place where they cross `value`. */
  lemma {:induction false} SearchFindsCrossing(fs: seq<Feature>, begin: nat, value: nat, end: nat)
    requires begin < end <= |fs|
    ensures var r := Search(fs, begin, value, end);
      && (r < end ==> fs[r].idx >= value)
      && (begin < r ==> fs[r - 1].idx < value)
    decreases end - begin
  {
    var diff := end - begin;
    if diff > 1 {
      var middle := begin + diff / 2;
      if fs[middle].idx >= value {
        SearchFindsCrossing(fs, begin, value, middle);
      } else {
        SearchFindsCrossing(fs, middle, value, end);
      }
    }
  }

  /** No feature below `value` follows one that is not. */
  ghost predicate SplitBy(fs: seq<Feature>, value: nat) {
    forall i, j :: 0 <= i <= j < |fs| && fs[j].idx < value ==> fs[i].idx < value
  }

  /** On such features, sorted ones for instance, the result is the exact lower bound of the range. */
  lemma {:induction false} SearchIsLowerBound(fs: seq<Feature>, begin: nat, value: nat, end: nat)
    requires begin < end <= |fs| && SplitBy(fs, value)
    ensures forall i :: begin <= i < end ==> (fs[i].idx < value <==> i < Search(fs, begin, value, end))
    decreases end - begin
  {
    var diff := end - begin;
    if diff > 1 {
      var middle := begin + diff / 2;
      if fs[middle].idx >= value {
        SearchIsLowerBound(fs, begin, value, middle);
      } else {
        SearchIsLowerBound(fs, middle, value, end);
      }
    }
  }

  /** The `k`-th boundary that `setup_example` pushes for a namespace, with `E` weights per part. */
  function Cut(fs: seq<Feature>, E: nat, k: nat): (r: nat)
    ensures r <= |fs|
  {
    if k == 0 then 0
    else
      var f := Cut(fs, E, k - 1);
      if |fs| > f then Search(fs, f, Base(k, E), |fs|) else f
  }

  /** The weight part a feature belongs to. */
  function PartOf(f: Feature, E: nat): nat
    requires E > 0
  {
    f.idx / E
  }

  /** The features come slice by slice; within a slice they may come in any order. */
  ghost predicate InSliceOrder(fs: seq<Feature>, E: nat)
    requires E > 0
  {
    forall i, j :: 0 <= i <= j < |fs| ==> PartOf(fs[i], E) <= PartOf(fs[j], E)
  }

  lemma SortedInSliceOrder(fs: seq<Feature>, E: nat)
    requires E > 0 && Sorted(fs)
    ensures InSliceOrder(fs, E)
  {
    forall i, j | 0 <= i <= j < |fs| ensures PartOf(fs[i], E) <= PartOf(fs[j], E) {
      DivMonotone(fs[i].idx, fs[j].idx, E);
    }
  }

  lemma SliceOrderSplits(fs: seq<Feature>, E: nat, k: nat)
    requires E > 0 && InSliceOrder(fs, E)
    ensures SplitBy(fs, Base(k, E))
  {
    forall i, j | 0 <= i <= j < |fs| && fs[j].idx < Base(k, E) ensures fs[i].idx < Base(k, E) {
      SliceBelow(fs[i].idx, E, k);
      SliceBelow(fs[j].idx, E, k);
    }
  }

  /** Boundary `k` splits the namespace exactly at weight index `k*E`. */
  lemma {:induction false} CutIsExact(fs: seq<Feature>, E: nat, k: nat)
    requires E > 0 && InSliceOrder(fs, E)
    ensures forall i :: 0 <= i < |fs| ==> (fs[i].idx < Base(k, E) <==> i < Cut(fs, E, k))
  {
    if k > 0 {
      CutIsExact(fs, E, k - 1);
      assert Base(k - 1, E) <= Base(k, E) by { BaseMonotone(k - 1, k, E); }
      var f := Cut(fs, E, k - 1);
      if |fs| > f {
        SliceOrderSplits(fs, E, k);
        SearchIsLowerBound(fs, f, Base(k, E), |fs|);
      }
    }
  }

  /** The features thread `k` works on. */
  function Part(fs: seq<Feature>, E: nat, k: nat): seq<Feature>
  {
    var b, e := Cut(fs, E, k), Cut(fs, E, k + 1);
    if b <= e then fs[b..e] else []
  }

  lemma CutStep(fs: seq<Feature>, E: nat, k: nat)
    ensures Cut(fs, E, k) <= Cut(fs, E, k + 1)
    ensures fs[..Cut(fs, E, k + 1)] == fs[..Cut(fs, E, k)] + Part(fs, E, k)
  {
  }

  lemma {:induction false} CutsRise(fs: seq<Feature>, E: nat, a: nat, b: nat)
    requires a <= b
    ensures Cut(fs, E, a) <= Cut(fs, E, b)
  {
    hide Cut;
    if a < b {
      CutsRise(fs, E, a, b - 1);
      CutStep(fs, E, b - 1);
    }
  }

  /** Part `k` holds exactly the features with index in `[k*E, (k+1)*E)`. */
  lemma PartIsExact(fs: seq<Feature>, E: nat, k: nat)
    requires E > 0 && InSliceOrder(fs, E)
    ensures Within(Part(fs, E, k), Base(k, E), Base(k, E) + E)
    ensures forall i :: 0 <= i < |fs| ==>
              (Base(k, E) <= fs[i].idx < Base(k, E) + E <==> Cut(fs, E, k) <= i < Cut(fs, E, k + 1))
  {
    CutIsExact(fs, E, k);
    CutIsExact(fs, E, k + 1);
    CutStep(fs, E, k);
  }

  /** A value above every index is searched for in vain, whatever the order of the features. */
  lemma {:induction false} SearchInVain(fs: seq<Feature>, begin: nat, value: nat, end: nat)
    requires begin < end <= |fs| && Within(fs, 0, value)
    ensures Search(fs, begin, value, end) == end
    decreases end - begin
  {
    if end - begin > 1 { SearchInVain(fs, begin + (end - begin) / 2, value, end); }
  }

  /** The last boundary is the end of the namespace, sorted or not. */
  lemma LastCutIsEnd(fs: seq<Feature>, E: nat, T: nat)
    requires Within(fs, 0, Base(T, E))
    ensures Cut(fs, E, T) == |fs|
  {
    assert |fs| > 0 ==> fs[0].idx < Base(T, E);
    if T > 0 && |fs| > Cut(fs, E, T - 1) { SearchInVain(fs, Cut(fs, E, T - 1), Base(T, E), |fs|); }
  }

  /** The boundaries of one namespace, in the order they are pushed. */
  function Cuts(fs: seq<Feature>, E: nat, k: nat): (r: seq<nat>)
    ensures |r| == k + 1
  {
    if k == 0 then [0] else Cuts(fs, E, k - 1) + [Cut(fs, E, k)]
  }

  lemma {:induction false} CutsAt(fs: seq<Feature>, E: nat, k: nat, j: nat)
    requires j <= k
    ensures Cuts(fs, E, k)[j] == Cut(fs, E, j)
  {
    if j < k { CutsAt(fs, E, k - 1, j); }
  }

  /** The boundary loop of `setup_example`, whose final assertion (`f == end`) is discharged. */
  method SetupSubsets(fs: seq<Feature>, E: nat, T: nat) returns (subsets: seq<nat>)
    requires E > 0 && Within(fs, 0, Base(T, E))
    ensures subsets == Cuts(fs, E, T) && subsets[T] == |fs|
  {
    var f := 0;
    subsets := [f];
    var current := E;
    ghost var k := 0;
    while current <= Base(T, E)
      invariant 0 <= k <= T
      invariant current == Base(k, E) + E
      invariant f == Cut(fs, E, k)
      invariant subsets == Cuts(fs, E, k)
      decreases T - k
    {
      assert k < T;
      var ret := f;
      if |fs| > f {
        ret := Search(fs, f, current, |fs|);
      }
      assert ret == Cut(fs, E, k + 1) by { assert current == Base(k + 1, E); }
      subsets := subsets + [ret];
      f := ret;
      current := current + E;
      k := k + 1;
    }
    assert k == T by { if k < T { BaseMonotone(k, T, E); } }
    assert f == |fs| by { LastCutIsEnd(fs, E, T); }
  }

  // ---------------------------------------------------------------- whole examples

  /** The namespaces of an example: each in slice order, all indices below the number of weights. */
  ghost predicate Ordered(nss: seq<seq<Feature>>, E: nat, size: nat)
    requires E > 0
  {
    forall n :: 0 <= n < |nss| ==> InSliceOrder(nss[n], E) && Within(nss[n], 0, size)
  }

  /** What sorting guarantees, whatever the number of slices. */
  ghost predicate WellFormed(nss: seq<seq<Feature>>, size: nat) {
    forall n :: 0 <= n < |nss| ==> Sorted(nss[n]) && Within(nss[n], 0, size)
  }

  lemma SortedIsOrdered(nss: seq<seq<Feature>>, E: nat, size: nat)
    requires E > 0 && WellFormed(nss, size)
    ensures Ordered(nss, E, size)
  {
    forall n | 0 <= n < |nss| ensures InSliceOrder(nss[n], E) { SortedInSliceOrder(nss[n], E); }
  }

  function Slice(w: seq<real>, E: nat, k: nat): (r: seq<real>)
    requires Base(k, E) + E <= |w|
    ensures |r| == E
  {
    w[Base(k, E)..Base(k, E) + E]
  }

  lemma SliceFits(E: nat, k: nat, T: nat)
    requires k < T
    ensures Base(k, E) + E <= Base(T, E)
  {
    BaseMonotone(k, T, E);
  }

  /** `inline_predict` of thread `k`, linear part. */
  function InlinePredict(slice: seq<real>, nss: seq<seq<Feature>>, k: nat): real
    requires |slice| > 0
  {
    if nss == [] then 0.0
    else InlinePredict(slice, nss[..|nss|-1], k) + SdAdd(slice, Part(nss[|nss|-1], |slice|, k))
  }

  /** `inline_train` of thread `k`, linear part. */
  function InlineTrain(slice: seq<real>, nss: seq<seq<Feature>>, k: nat, u: real): (r: seq<real>)
    requires |slice| > 0
    ensures |r| == |slice|
  {
    if nss == [] then slice
    else Train(InlineTrain(slice, nss[..|nss|-1], k, u), Part(nss[|nss|-1], |slice|, k), u)
  }

  /** The dot product of a whole example with the whole weight vector. */
  function PredictAll(w: seq<real>, nss: seq<seq<Feature>>): real
    requires |w| > 0
  {
    if nss == [] then 0.0
    else PredictAll(w, nss[..|nss|-1]) + SdAdd(w, nss[|nss|-1])
  }

  /** A whole example's update of the whole weight vector. */
  function TrainAll(w: seq<real>, nss: seq<seq<Feature>>, u: real): (r: seq<real>)
    requires |w| > 0
    ensures |r| == |w|
  {
    if nss == [] then w
    else Train(TrainAll(w, nss[..|nss|-1], u), nss[|nss|-1], u)
  }

  /** The per-thread predictions of threads `0..n`, added up. */
  function SumOfParts(w: seq<real>, nss: seq<seq<Feature>>, E: nat, n: nat): real
    requires E > 0 && Base(n, E) <= |w|
  {
    if n == 0 then 0.0
    else
      SumOfParts(w, nss, E, n - 1) + InlinePredict(Slice(w, E, n - 1), nss, n - 1)
  }

  /** The features before boundary `n`, per namespace. */
  function Prefix(fs: seq<Feature>, E: nat, n: nat): seq<Feature> {
    fs[..Cut(fs, E, n)]
  }

  function Prefixes(nss: seq<seq<Feature>>, E: nat, n: nat): (r: seq<seq<Feature>>)
    ensures |r| == |nss|
  {
    if nss == [] then [] else Prefixes(nss[..|nss|-1], E, n) + [Prefix(nss[|nss|-1], E, n)]
  }

  lemma PredictSnoc(w: seq<real>, nss: seq<seq<Feature>>, fs: seq<Feature>)
    requires |w| > 0
    ensures PredictAll(w, nss + [fs]) == PredictAll(w, nss) + SdAdd(w, fs)
  {
    assert (nss + [fs])[..|nss|] == nss;
  }

  lemma NextPrefix(w: seq<real>, fs: seq<Feature>, E: nat, k: nat)
    requires E > 0 && Base(k, E) + E <= |w| && InSliceOrder(fs, E)
    ensures SdAdd(w, Prefix(fs, E, k + 1)) == SdAdd(w, Prefix(fs, E, k)) + SdAdd(Slice(w, E, k), Part(fs, E, k))
  {
    hide SdAdd;
    var part := Part(fs, E, k);
    assert Prefix(fs, E, k + 1) == Prefix(fs, E, k) + part by { CutStep(fs, E, k); }
    SdAddConcat(w, Prefix(fs, E, k), part);
    assert SdAdd(Slice(w, E, k), part) == SdAdd(w, part) by {
      PartIsExact(fs, E, k);
      SdAddSlice(w, E, k, part);
    }
  }

  lemma {:induction false} AddPart(w: seq<real>, nss: seq<seq<Feature>>, E: nat, k: nat)
    requires E > 0 && Base(k, E) + E <= |w| && Ordered(nss, E, |w|)
    ensures PredictAll(w, Prefixes(nss, E, k + 1))
         == PredictAll(w, Prefixes(nss, E, k)) + InlinePredict(Slice(w, E, k), nss, k)
  {
    hide SdAdd, Slice, Prefix, Part, Base;
    if nss != [] {
      var init, fs := nss[..|nss| - 1], nss[|nss| - 1];
      AddPart(w, init, E, k);
      NextPrefix(w, fs, E, k);
      assert Prefixes(nss, E, k + 1) == Prefixes(init, E, k + 1) + [Prefix(fs, E, k + 1)];
      assert Prefixes(nss, E, k) == Prefixes(init, E, k) + [Prefix(fs, E, k)];
      PredictSnoc(w, Prefixes(init, E, k + 1), Prefix(fs, E, k + 1));
      PredictSnoc(w, Prefixes(init, E, k), Prefix(fs, E, k));
    }
  }

  lemma {:induction false} PredictNothing(w: seq<real>, nss: seq<seq<Feature>>)
    requires |w| > 0 && forall i :: 0 <= i < |nss| ==> nss[i] == []
    ensures PredictAll(w, nss) == 0.0
  {
    if nss != [] { PredictNothing(w, nss[..|nss| - 1]); }
  }

  lemma {:induction false} NoPrefixes(nss: seq<seq<Feature>>, E: nat)
    ensures forall i :: 0 <= i < |nss| ==> Prefixes(nss, E, 0)[i] == []
  {
    if nss != [] { NoPrefixes(nss[..|nss| - 1], E); }
  }

  lemma {:induction false} AllPrefixes(nss: seq<seq<Feature>>, E: nat, T: nat)
    requires E > 0 && Ordered(nss, E, Base(T, E))
    ensures Prefixes(nss, E, T) == nss
  {
    if nss != [] {
      var fs := nss[|nss| - 1];
      AllPrefixes(nss[..|nss| - 1], E, T);
      assert Prefix(fs, E, T) == fs by { LastCutIsEnd(fs, E, T); }
      assert nss == nss[..|nss| - 1] + [fs];
    }
  }

  lemma PredictNoPrefixes(w: seq<real>, nss: seq<seq<Feature>>, E: nat)
    requires |w| > 0
    ensures PredictAll(w, Prefixes(nss, E, 0)) == 0.0
  {
    NoPrefixes(nss, E);
    PredictNothing(w, Prefixes(nss, E, 0));
  }

  lemma {:induction false} SumOfPartsIsPrefix(w: seq<real>, nss: seq<seq<Feature>>, E: nat, n: nat)
    requires E > 0 && Base(n, E) <= |w| && |w| > 0 && Ordered(nss, E, |w|)
    ensures SumOfParts(w, nss, E, n) == PredictAll(w, Prefixes(nss, E, n))
  {
    if n == 0 {
      PredictNoPrefixes(w, nss, E);
    } else {
      var m := n - 1;
      SumOfPartsIsPrefix(w, nss, E, m);
      AddPart(w, nss, E, m);
      assert SumOfParts(w, nss, E, n) == SumOfParts(w, nss, E, m) + InlinePredict(Slice(w, E, m), nss, m);
    }
  }

  /** The parallel prediction: the threads' partial predictions add up to the whole dot product. */
  lemma PartitionedPrediction(w: seq<real>, nss: seq<seq<Feature>>, E: nat, T: nat)
    requires E > 0 && T > 0 && |w| == Base(T, E) && |w| > 0 && Ordered(nss, E, |w|)
    ensures SumOfParts(w, nss, E, T) == PredictAll(w, nss)
  {
    SumOfPartsIsPrefix(w, nss, E, T);
    AllPrefixes(nss, E, T);
  }

  lemma TrainThree(w: seq<real>, a: seq<Feature>, b: seq<Feature>, c: seq<Feature>, E: nat, k: nat, u: real)
    requires E > 0 && Base(k, E) + E <= |w| && Within(b, Base(k, E), Base(k, E) + E)
    requires Within(a, 0, Base(k, E)) && Within(c, Base(k, E) + E, |w|)
    ensures Slice(Train(w, a + b + c, u), E, k) == Train(Slice(w, E, k), b, u)
  {
    hide Train, Base;
    var lo, hi := Base(k, E), Base(k, E) + E;
    var w1 := Train(w, a, u);
    var w2 := Train(w1, b, u);
    var w3 := Train(w2, c, u);
    assert Train(w, a + b + c, u) == w3 by {
      TrainConcat(w, a + b, c, u);
      TrainConcat(w, a, b, u);
    }
    assert w1[lo..hi] == w[lo..hi] by { TrainOutside(w, lo, hi, a, u); }
    assert w3[lo..hi] == w2[lo..hi] by { TrainOutside(w2, lo, hi, c, u); }
    TrainInside(w1, E, k, b, u);
  }

  lemma ThreeRanges(fs: seq<Feature>, E: nat, k: nat, size: nat)
    requires E > 0 && InSliceOrder(fs, E) && Within(fs, 0, size)
    ensures var b, e := Cut(fs, E, k), Cut(fs, E, k + 1);
      b <= e && Within(fs[..b], 0, Base(k, E)) && Within(fs[b..e], Base(k, E), Base(k, E) + E)
      && Within(fs[e..], Base(k, E) + E, size)
  {
    CutIsExact(fs, E, k);
    CutIsExact(fs, E, k + 1);
    CutStep(fs, E, k);
  }

  lemma ThreePieces(fs: seq<Feature>, E: nat, k: nat)
    ensures var b, e := Cut(fs, E, k), Cut(fs, E, k + 1);
      b <= e && fs == fs[..b] + fs[b..e] + fs[e..] && Part(fs, E, k) == fs[b..e]
  {
    CutStep(fs, E, k);
    hide Cut;
  }

  /** Training a namespace in slice order on the whole vector touches slice `k` only through part `k`. */
  lemma TrainNamespace(w: seq<real>, fs: seq<Feature>, E: nat, k: nat, u: real)
    requires E > 0 && Base(k, E) + E <= |w| && InSliceOrder(fs, E) && Within(fs, 0, |w|)
    ensures Slice(Train(w, fs, u), E, k) == Train(Slice(w, E, k), Part(fs, E, k), u)
  {
    var b, e := Cut(fs, E, k), Cut(fs, E, k + 1);
    ThreeRanges(fs, E, k, |w|);
    ThreePieces(fs, E, k);
    hide *;
    TrainThree(w, fs[..b], fs[b..e], fs[e..], E, k, u);
  }

  /** The parallel update: slice by slice it is the update of the whole vector. */
  lemma {:induction false} PartitionedTraining(w: seq<real>, nss: seq<seq<Feature>>, E: nat, k: nat, u: real)
    requires E > 0 && Base(k, E) + E <= |w| && Ordered(nss, E, |w|)
    ensures Slice(TrainAll(w, nss, u), E, k) == InlineTrain(Slice(w, E, k), nss, k, u)
  {
    hide Part, Slice, Train;
    if nss != [] {
      var init := nss[..|nss| - 1];
      PartitionedTraining(w, init, E, k, u);
      TrainNamespace(TrainAll(w, init, u), nss[|nss| - 1], E, k, u);
    }
  }

  /** `subsets` holds the boundaries that `setup_example` stored for this thread. */
  predicate CutAt(fs: seq<Feature>, subsets: seq<nat>, E: nat, thread: nat) {
    && |subsets| > thread + 1
    && subsets[thread] == Cut(fs, E, thread)
    && subsets[thread + 1] == Cut(fs, E, thread + 1)
  }

  /** `inline_predict` as a loop over the namespaces of one thread's slice. */
  method InlinePredictLoop(weights: array<real>, nss: seq<seq<Feature>>, subsets: seq<seq<nat>>, thread: nat)
    returns (prediction: real)
    requires weights.Length > 0 && |subsets| == |nss|
    requires forall n :: 0 <= n < |nss| ==> CutAt(nss[n], subsets[n], weights.Length, thread)
    ensures prediction == InlinePredict(weights[..], nss, thread)
  {
    prediction := 0.0;
    var i := 0;
    while i != |nss|
      invariant 0 <= i <= |nss|
      invariant prediction == InlinePredict(weights[..], nss[..i], thread)
    {
      assert nss[..i + 1][..i] == nss[..i];
      CutStep(nss[i], weights.Length, thread);
      var p := SdAddLoop(weights, nss[i], subsets[i][thread], subsets[i][thread + 1]);
      prediction := prediction + p;
      i := i + 1;
    }
    assert nss[..i] == nss;
  }

  /** `inline_train` in place; a zero update is skipped, which changes nothing. */
  method InlineTrainLoop(weights: array<real>, nss: seq<seq<Feature>>, subsets: seq<seq<nat>>,
                         thread: nat, update: real)
    requires weights.Length > 0 && |subsets| == |nss|
    requires forall n :: 0 <= n < |nss| ==> CutAt(nss[n], subsets[n], weights.Length, thread)
    modifies weights
    ensures weights[..] == InlineTrain(old(weights[..]), nss, thread, update)
  {
    if update == 0.0 {
      ZeroTrainsNothing(weights[..], nss, thread);
      return;
    }
    var i := 0;
    while i != |nss|
      invariant 0 <= i <= |nss|
      invariant weights[..] == InlineTrain(old(weights[..]), nss[..i], thread, update)
    {
      assert nss[..i + 1][..i] == nss[..i];
      CutStep(nss[i], weights.Length, thread);
      TrainLoop(weights, nss[i], subsets[i][thread], subsets[i][thread + 1], update);
      i := i + 1;
    }
    assert nss[..i] == nss;
  }

  lemma {:induction false} ZeroTrainsNothing(slice: seq<real>, nss: seq<seq<Feature>>, k: nat)
    requires |slice| > 0
    ensures InlineTrain(slice, nss, k, 0.0) == slice
  {
    if nss != [] {
      ZeroTrainsNothing(slice, nss[..|nss| - 1], k);
      ZeroTrain(slice, Part(nss[|nss| - 1], |slice|, k));
    }
  }

  lemma {:induction false} ZeroTrain(w: seq<real>, fs: seq<Feature>)
    requires |w| > 0
    ensures Train(w, fs, 0.0) == w
  {
    if fs != [] { ZeroTrain(w, fs[..|fs| - 1]); }
  }
}
