/** How far one update moves the example's own prediction (`inline_train` and `inline_predict` in src/gd.cc). Nothing
    keeps two features of an example off one weight: words repeat and hashes collide. */
module UpdateGain {
  import opened Features
  import opened Partition

  // ------------------------------------------------------------ one list instead of namespaces

  function Flat(nss: seq<seq<Feature>>): seq<Feature> {
    if nss == [] then [] else Flat(nss[..|nss|-1]) + nss[|nss|-1]
  }

  lemma {:induction false} FlatPredict(w: seq<real>, nss: seq<seq<Feature>>)
    requires |w| > 0
    ensures PredictAll(w, nss) == SdAdd(w, Flat(nss))
  {
    if nss != [] {
      FlatPredict(w, nss[..|nss| - 1]);
      SdAddConcat(w, Flat(nss[..|nss| - 1]), nss[|nss| - 1]);
    }
  }

  lemma {:induction false} FlatTrain(w: seq<real>, nss: seq<seq<Feature>>, u: real)
    requires |w| > 0
    ensures TrainAll(w, nss, u) == Train(w, Flat(nss), u)
  {
    if nss != [] {
      FlatTrain(w, nss[..|nss| - 1], u);
      TrainConcat(w, Flat(nss[..|nss| - 1]), nss[|nss| - 1], u);
    }
  }

  // ------------------------------------------------------------ weight by weight

  function Square(x: real): (r: real)
    ensures r >= 0.0
  {
    x * x
  }

  /** What the features on weight `i` add up to. */
  function OnWeight(fs: seq<Feature>, size: nat, i: nat): real
    requires size > 0
  {
    if fs == [] then 0.0
    else OnWeight(fs[..|fs|-1], size, i) + if fs[|fs|-1].idx % size == i then fs[|fs|-1].x else 0.0
  }

  function GainTo(fs: seq<Feature>, size: nat, n: nat): (r: real)
    requires size > 0
    ensures r >= 0.0
  {
    if n == 0 then 0.0 else GainTo(fs, size, n - 1) + Square(OnWeight(fs, size, n - 1))
  }

  /** The sum over all weights of the square of what lies on the weight. */
  function Gain(fs: seq<Feature>, size: nat): (r: real)
    requires size > 0
    ensures r >= 0.0
  {
    GainTo(fs, size, size)
  }

  /** The dot product with the first `n` weights, weight by weight. */
  function DotTo(w: seq<real>, fs: seq<Feature>, n: nat): real
    requires 0 < |w| && n <= |w|
  {
    if n == 0 then 0.0 else DotTo(w, fs, n - 1) + w[n - 1] * OnWeight(fs, |w|, n - 1)
  }

  lemma {:induction false} DotNone(w: seq<real>, n: nat)
    requires 0 < |w| && n <= |w|
    ensures DotTo(w, [], n) == 0.0
  {
    if n > 0 { DotNone(w, n - 1); }
  }

  lemma Spread(a: real, s: real, x: real)
    ensures a * (s + x) == a * s + a * x
  {
  }

  lemma {:induction false} DotSnoc(w: seq<real>, fs: seq<Feature>, n: nat)
    requires 0 < |w| && n <= |w| && fs != []
    ensures var f := fs[|fs| - 1];
      DotTo(w, fs, n) == DotTo(w, fs[..|fs| - 1], n) + if f.idx % |w| < n then Term(w, f) else 0.0
  {
    if n > 0 {
      DotSnoc(w, fs, n - 1);
      var s, f := OnWeight(fs[..|fs| - 1], |w|, n - 1), fs[|fs| - 1];
      Spread(w[n - 1], s, f.x);
    }
  }

  lemma {:induction false} DotIsSdAdd(w: seq<real>, fs: seq<Feature>)
    requires |w| > 0
    ensures DotTo(w, fs, |w|) == SdAdd(w, fs)
  {
    if fs == [] {
      DotNone(w, |w|);
    } else {
      DotIsSdAdd(w, fs[..|fs| - 1]);
      DotSnoc(w, fs, |w|);
    }
  }

  lemma BumpAt(w: seq<real>, f: Feature, u: real, i: nat)
    requires i < |w|
    ensures Bump(w, f, u)[i] == w[i] + u * if f.idx % |w| == i then f.x else 0.0
  {
  }

  /** Training adds to every weight the update times what lies on it. */
  lemma {:induction false} TrainAt(w: seq<real>, fs: seq<Feature>, u: real, i: nat)
    requires i < |w|
    ensures Train(w, fs, u)[i] == w[i] + u * OnWeight(fs, |w|, i)
  {
    if fs != [] {
      var init, f := fs[..|fs| - 1], fs[|fs| - 1];
      TrainAt(w, init, u, i);
      hide Bump;
      BumpAt(Train(w, init, u), f, u, i);
      Spread(u, OnWeight(init, |w|, i), if f.idx % |w| == i then f.x else 0.0);
    }
  }

  lemma MovedProduct(a: real, u: real, s: real)
    ensures (a + u * s) * s == a * s + u * Square(s)
  {
    assert (u * s) * s == u * (s * s);
  }

  lemma {:induction false} DotMoves(w: seq<real>, v: seq<real>, fs: seq<Feature>, u: real, n: nat)
    requires 0 < |w| == |v| && n <= |w|
    requires forall i :: 0 <= i < |w| ==> v[i] == w[i] + u * OnWeight(fs, |w|, i)
    ensures DotTo(v, fs, n) == DotTo(w, fs, n) + u * GainTo(fs, |w|, n)
  {
    if n > 0 {
      DotMoves(w, v, fs, u, n - 1);
      var s := OnWeight(fs, |w|, n - 1);
      MovedProduct(w[n - 1], u, s);
      Spread(u, GainTo(fs, |w|, n - 1), Square(s));
    }
  }

  /** One update moves the prediction by the update times the gain, whatever features share weights. */
  lemma TrainShifts(w: seq<real>, fs: seq<Feature>, u: real)
    requires |w| > 0
    ensures SdAdd(Train(w, fs, u), fs) == SdAdd(w, fs) + u * Gain(fs, |w|)
  {
    hide Train, SdAdd, DotTo, GainTo, OnWeight;
    var v := Train(w, fs, u);
    forall i | 0 <= i < |w| ensures v[i] == w[i] + u * OnWeight(fs, |w|, i) { TrainAt(w, fs, u, i); }
    DotMoves(w, v, fs, u, |w|);
    DotIsSdAdd(w, fs);
    DotIsSdAdd(v, fs);
  }

  lemma ExampleShifts(w: seq<real>, nss: seq<seq<Feature>>, u: real)
    requires |w| > 0
    ensures PredictAll(TrainAll(w, nss, u), nss) == PredictAll(w, nss) + u * Gain(Flat(nss), |w|)
  {
    hide *;
    FlatTrain(w, nss, u);
    FlatPredict(w, nss);
    FlatPredict(TrainAll(w, nss, u), nss);
    TrainShifts(w, Flat(nss), u);
  }

  // ------------------------------------------------------------ the gain against the sum of squares

  function SumSq(fs: seq<Feature>): (r: real)
    ensures r >= 0.0
  {
    if fs == [] then 0.0 else SumSq(fs[..|fs|-1]) + Square(fs[|fs|-1].x)
  }

  /** No two features share a weight. */
  ghost predicate Distinct(fs: seq<Feature>, size: nat)
    requires size > 0
  {
    forall i, j :: 0 <= i < j < |fs| ==> fs[i].idx % size != fs[j].idx % size
  }

  lemma {:induction false} GainNone(size: nat, n: nat)
    requires size > 0
    ensures GainTo([], size, n) == 0.0
  {
    if n > 0 { GainNone(size, n - 1); }
  }

  lemma SquareOfSum(s: real, x: real)
    ensures Square(s + x) == Square(s) + 2.0 * s * x + Square(x)
  {
  }

  lemma {:induction false} GainToSnoc(fs: seq<Feature>, size: nat, n: nat)
    requires size > 0 && fs != []
    ensures var init, f := fs[..|fs| - 1], fs[|fs| - 1];
      GainTo(fs, size, n) == GainTo(init, size, n)
        + if f.idx % size < n then 2.0 * OnWeight(init, size, f.idx % size) * f.x + Square(f.x) else 0.0
  {
    if n > 0 {
      GainToSnoc(fs, size, n - 1);
      hide Square;
      SquareOfSum(OnWeight(fs[..|fs| - 1], size, n - 1), fs[|fs| - 1].x);
    }
  }

  /** A further feature adds its square and twice its product with what already lies on its weight. */
  lemma GainSnoc(fs: seq<Feature>, f: Feature, size: nat)
    requires size > 0
    ensures Gain(fs + [f], size) == Gain(fs, size) + 2.0 * OnWeight(fs, size, f.idx % size) * f.x + Square(f.x)
  {
    var all := fs + [f];
    assert all[..|all| - 1] == fs && all[|all| - 1] == f;
    GainToSnoc(all, size, size);
  }

  lemma {:induction false} OnWeightNone(fs: seq<Feature>, size: nat, i: nat)
    requires size > 0 && forall k :: 0 <= k < |fs| ==> fs[k].idx % size != i
    ensures OnWeight(fs, size, i) == 0.0
  {
    if fs != [] { OnWeightNone(fs[..|fs| - 1], size, i); }
  }

  /** With every feature on a weight of its own the gain is the sum of squares. */
  lemma {:induction false} DistinctGain(fs: seq<Feature>, size: nat)
    requires size > 0 && Distinct(fs, size)
    ensures Gain(fs, size) == SumSq(fs)
  {
    if fs == [] {
      GainNone(size, size);
    } else {
      var init, f := fs[..|fs| - 1], fs[|fs| - 1];
      DistinctGain(init, size);
      OnWeightNone(init, size, f.idx % size);
      hide Gain, Distinct, Square;
      GainSnoc(init, f, size);
      assert init + [f] == fs;
    }
  }

  predicate Units(fs: seq<Feature>) {
    forall i :: 0 <= i < |fs| ==> fs[i].x == 1.0
  }

  lemma {:induction false} OnWeightUnits(fs: seq<Feature>, size: nat, i: nat)
    requires size > 0 && Units(fs)
    ensures OnWeight(fs, size, i) >= 0.0
    ensures (exists k :: 0 <= k < |fs| && fs[k].idx % size == i) ==> OnWeight(fs, size, i) >= 1.0
  {
    if fs != [] {
      var init := fs[..|fs| - 1];
      OnWeightUnits(init, size, i);
      if k :| 0 <= k < |fs| && fs[k].idx % size == i && k < |fs| - 1 {
        assert init[k].idx % size == i;
      }
    }
  }

  lemma DistinctSnoc(fs: seq<Feature>, f: Feature, size: nat)
    requires size > 0
    ensures Distinct(fs + [f], size) <==>
      Distinct(fs, size) && forall k :: 0 <= k < |fs| ==> fs[k].idx % size != f.idx % size
  {
    var all := fs + [f];
    if Distinct(all, size) {
      forall i, j | 0 <= i < j < |fs| ensures fs[i].idx % size != fs[j].idx % size {
        assert all[i].idx % size != all[j].idx % size;
      }
      forall k | 0 <= k < |fs| ensures fs[k].idx % size != f.idx % size {
        assert all[k].idx % size != all[|fs|].idx % size;
      }
    }
  }

  /** Features of value one: as many as there are when they are apart, and at least two more when they are not. */
  lemma {:induction false} UnitGain(fs: seq<Feature>, size: nat)
    requires size > 0 && Units(fs)
    ensures Distinct(fs, size) ==> Gain(fs, size) == |fs| as real
    ensures !Distinct(fs, size) ==> Gain(fs, size) >= |fs| as real + 2.0
  {
    if fs == [] {
      GainNone(size, size);
    } else {
      var init, f := fs[..|fs| - 1], fs[|fs| - 1];
      assert init + [f] == fs;
      UnitGain(init, size);
      GainSnoc(init, f, size);
      DistinctSnoc(init, f, size);
      OnWeightUnits(init, size, f.idx % size);
      if forall k :: 0 <= k < |init| ==> init[k].idx % size != f.idx % size {
        OnWeightNone(init, size, f.idx % size);
      }
    }
  }
}
