/** Sparse features, the per-slice dot product and the per-slice update
    (src/sparse_dense.cc, src/gd.cc), with floats read as reals. */
module Features {
  import opened Modulus

  datatype Feature = Feature(x: real, idx: nat)

  /** One summand of `sd_add`: `weights[f->weight_index & mask] * f->x`. */
  function Term(w: seq<real>, f: Feature): real
    requires |w| > 0
  {
    w[f.idx % |w|] * f.x
  }

  /** `sd_add`: a slice of `|w|` weights is indexed by `idx & (|w|-1)`, that is `idx % |w|`
      for the power-of-two slice sizes the program uses. */
  function SdAdd(w: seq<real>, fs: seq<Feature>): real
    requires |w| > 0
  {
    if fs == [] then 0.0
    else
      SdAdd(w, fs[..|fs|-1]) + Term(w, fs[|fs|-1])
  }

  /** One weight update: `weights[f->weight_index & mask] += update * f->x`. */
  function Bump(w: seq<real>, f: Feature, u: real): (r: seq<real>)
    requires |w| > 0
    ensures |r| == |w|
  {
    var i := f.idx % |w|;
    w[i := w[i] + u * f.x]
  }

  /** The update loop of `inline_train` over one feature range. */
  function Train(w: seq<real>, fs: seq<Feature>, u: real): (r: seq<real>)
    requires |w| > 0
    ensures |r| == |w|
  {
    if fs == [] then w
    else Bump(Train(w, fs[..|fs|-1], u), fs[|fs|-1], u)
  }

  lemma {:induction false} SdAddConcat(w: seq<real>, a: seq<Feature>, b: seq<Feature>)
    requires |w| > 0
    ensures SdAdd(w, a + b) == SdAdd(w, a) + SdAdd(w, b)
  {
    if b == [] {
      assert a + b == a;
    } else {
      assert (a + b)[..|a + b| - 1] == a + b[..|b| - 1];
      SdAddConcat(w, a, b[..|b| - 1]);
    }
  }

  lemma {:induction false} TrainConcat(w: seq<real>, a: seq<Feature>, b: seq<Feature>, u: real)
    requires |w| > 0
    ensures Train(w, a + b, u) == Train(Train(w, a, u), b, u)
  {
    if b == [] {
      assert a + b == a;
    } else {
      assert (a + b)[..|a + b| - 1] == a + b[..|b| - 1];
      assert (a + b)[|a + b| - 1] == b[|b| - 1];
      TrainConcat(w, a, b[..|b| - 1], u);
    }
  }

  /** All indices lie in `[lo, hi)`. */
  ghost predicate Within(fs: seq<Feature>, lo: int, hi: int) {
    forall i :: 0 <= i < |fs| ==> lo <= fs[i].idx < hi
  }

  ghost predicate Sorted(fs: seq<Feature>) {
    forall i, j :: 0 <= i <= j < |fs| ==> fs[i].idx <= fs[j].idx
  }

  /** The first weight index of slice `k`, that is `k * E`; repeated addition, as `current += expert_size`. */
  function Base(k: nat, E: nat): nat {
    if k == 0 then 0 else Base(k - 1, E) + E
  }

  lemma {:induction false} BaseIsProduct(k: nat, E: nat)
    ensures Base(k, E) == k * E
  {
    if k > 0 { BaseIsProduct(k - 1, E); }
  }

  lemma {:induction false} BaseMonotone(j: nat, k: nat, E: nat)
    requires j <= k
    ensures Base(j, E) <= Base(k, E)
    ensures j < k ==> Base(j, E) + E <= Base(k, E)
  {
    if j < k { BaseMonotone(j, k - 1, E); }
  }

  lemma SliceBelow(idx: nat, E: nat, k: nat)
    requires E > 0
    ensures idx < Base(k, E) <==> idx / E < k
  {
    BaseIsProduct(k, E);
    DivBelow(idx, E, k);
  }

  lemma OffsetInSlice(idx: nat, E: nat, k: nat)
    requires E > 0 && Base(k, E) <= idx < Base(k, E) + E
    ensures idx % E == idx - Base(k, E)
  {
    BaseIsProduct(k, E);
    DivModUnique(idx, E, k, idx - Base(k, E));
  }

  lemma TermInside(w: seq<real>, E: nat, k: nat, f: Feature)
    requires E > 0 && Base(k, E) + E <= |w| && Base(k, E) <= f.idx < Base(k, E) + E
    ensures Term(w[Base(k, E)..Base(k, E) + E], f) == Term(w, f)
  {
    OffsetInSlice(f.idx, E, k);
    OffsetInSlice(f.idx, |w|, 0);
  }

  /** On the features that live in a slice, the slice computes what the whole vector computes. */
  lemma {:induction false} SdAddSlice(w: seq<real>, E: nat, k: nat, fs: seq<Feature>)
    requires E > 0 && Base(k, E) + E <= |w|
    requires Within(fs, Base(k, E), Base(k, E) + E)
    ensures SdAdd(w[Base(k, E)..Base(k, E) + E], fs) == SdAdd(w, fs)
  {
    if fs != [] {
      var f := fs[|fs| - 1];
      SdAddSlice(w, E, k, fs[..|fs| - 1]);
      TermInside(w, E, k, f);
    }
  }

  lemma BumpInside(w: seq<real>, E: nat, k: nat, f: Feature, u: real)
    requires E > 0 && Base(k, E) + E <= |w| && Base(k, E) <= f.idx < Base(k, E) + E
    ensures Bump(w, f, u)[Base(k, E)..Base(k, E) + E] == Bump(w[Base(k, E)..Base(k, E) + E], f, u)
  {
    OffsetInSlice(f.idx, E, k);
    OffsetInSlice(f.idx, |w|, 0);
  }

  /** Training on the features of slice `k` changes that slice exactly as the slice-local loop does. */
  lemma {:induction false} TrainInside(w: seq<real>, E: nat, k: nat, fs: seq<Feature>, u: real)
    requires E > 0 && Base(k, E) + E <= |w|
    requires Within(fs, Base(k, E), Base(k, E) + E)
    ensures Train(w, fs, u)[Base(k, E)..Base(k, E) + E] == Train(w[Base(k, E)..Base(k, E) + E], fs, u)
  {
    if fs != [] {
      var f := fs[|fs| - 1];
      TrainInside(w, E, k, fs[..|fs| - 1], u);
      BumpInside(Train(w, fs[..|fs| - 1], u), E, k, f, u);
    }
  }

  /** ... and leaves every other slice alone. */
  lemma {:induction false} TrainOutside(w: seq<real>, lo: nat, hi: nat, fs: seq<Feature>, u: real)
    requires lo <= hi <= |w| && |w| > 0
    requires forall i :: 0 <= i < |fs| ==> fs[i].idx < |w| && !(lo <= fs[i].idx < hi)
    ensures Train(w, fs, u)[lo..hi] == w[lo..hi]
  {
    if fs != [] {
      var f := fs[|fs| - 1];
      TrainOutside(w, lo, hi, fs[..|fs| - 1], u);
      OffsetInSlice(f.idx, |w|, 0);
    }
  }

  /** `sd_add` as the source writes it: a loop that accumulates `ret`. */
  method SdAddLoop(weights: array<real>, fs: seq<Feature>, begin: nat, end: nat) returns (ret: real)
    requires weights.Length > 0 && begin <= end <= |fs|
    ensures ret == SdAdd(weights[..], fs[begin..end])
  {
    ret := 0.0;
    var f := begin;
    while f != end
      invariant begin <= f <= end
      invariant ret == SdAdd(weights[..], fs[begin..f])
    {
      assert fs[begin..f + 1][..f - begin] == fs[begin..f];
      assert weights[fs[f].idx % weights.Length] * fs[f].x == Term(weights[..], fs[f]);
      ret := ret + weights[fs[f].idx % weights.Length] * fs[f].x;
      f := f + 1;
    }
  }

  /** The inner loop of `inline_train`: in place on one thread's slice. */
  method TrainLoop(weights: array<real>, fs: seq<Feature>, begin: nat, end: nat, update: real)
    requires weights.Length > 0 && begin <= end <= |fs|
    modifies weights
    ensures weights[..] == Train(old(weights[..]), fs[begin..end], update)
  {
    var f := begin;
    while f != end
      invariant begin <= f <= end
      invariant weights[..] == Train(old(weights[..]), fs[begin..f], update)
    {
      assert fs[begin..f + 1][..f - begin] == fs[begin..f];
      assert fs[begin..f + 1][f - begin] == fs[f];
      var i := fs[f].idx % weights.Length;
      ghost var before := weights[..];
      weights[i] := weights[i] + update * fs[f].x;
      assert |before| == weights.Length && i == fs[f].idx % |before|;
      assert weights[..] == Bump(before, fs[f], update);
      f := f + 1;
    }
  }
}
