/** What `Overshoot` means for the learner's own step, and which examples have too small a normalizer
    (src/gd.cc, `setup_example` and `addgrams` in src/parser.cc). */
module OvershootLearner {
  import opened Basics
  import opened Features
  import opened Partition
  import opened Learner
  import opened UpdateGain
  import opened Overshoot
  import SkipGrams

  /** The learner's step on `ex`, at rate `etaT` and weights `w`, does not pass the label. */
  predicate StepStays(cfg: Config, ex: Example, w: seq<real>, etaT: real)
    requires |w| > 0 && ex.target.Some?
  {
    NoOvershoot(cfg.loss, ex.target.value, PredictAll(w, ex.nss),
                PredictAll(SeqStep(cfg, w, ex.(etaT := etaT)), ex.nss))
  }

  /** The label, the clamp, the normalizer and the features of an example meet the exact condition on `size`
      weights. */
  predicate ExampleCovered(cfg: Config, ex: Example, size: nat)
    requires ex.target.Some? && size > 0
  {
    Covered(cfg.loss, cfg.lo, cfg.hi, ex.target.value, ex.norm, Gain(Flat(ex.nss), size))
  }

  /** The update of the learner's step on `ex` at rate `etaT`. */
  function StepUpdate(cfg: Config, ex: Example, p: real, etaT: real): real
    requires ex.target.Some?
  {
    GetUpdate(cfg.loss, Finalize(cfg.lo, cfg.hi, p), ex.target.value, etaT, ex.norm)
  }

  lemma StepTrains(cfg: Config, ex: Example, w: seq<real>, etaT: real)
    requires |w| > 0 && Trains(cfg, ex)
    ensures SeqStep(cfg, w, ex.(etaT := etaT)) == TrainAll(w, ex.nss, StepUpdate(cfg, ex, PredictAll(w, ex.nss), etaT))
  {
    hide PredictAll, TrainAll, GetUpdate, Finalize;
  }

  function Moved(p: real, u: real, gain: real): real {
    p + u * gain
  }

  lemma TrainingMoves(w: seq<real>, nss: seq<seq<Feature>>, u: real)
    requires |w| > 0
    ensures PredictAll(TrainAll(w, nss, u), nss) == Moved(PredictAll(w, nss), u, Gain(Flat(nss), |w|))
  {
    hide PredictAll, TrainAll, Gain, Flat;
    ExampleShifts(w, nss, u);
  }

  lemma RuleMoves(cfg: Config, ex: Example, p: real, etaT: real, gain: real)
    requires ex.target.Some?
    ensures After(cfg.loss, cfg.lo, cfg.hi, ex.target.value, etaT, p, ex.norm, gain)
         == Moved(p, StepUpdate(cfg, ex, p, etaT), gain)
  {
    hide GetUpdate, Finalize;
  }

  /** The step is the scalar rule applied to the example's own prediction. */
  lemma StepIsAfter(cfg: Config, ex: Example, w: seq<real>, etaT: real)
    requires |w| > 0 && Trains(cfg, ex)
    ensures PredictAll(SeqStep(cfg, w, ex.(etaT := etaT)), ex.nss)
         == After(cfg.loss, cfg.lo, cfg.hi, ex.target.value, etaT, PredictAll(w, ex.nss), ex.norm,
                  Gain(Flat(ex.nss), |w|))
  {
    assert ex.target.Some?;
    hide *;
    StepTrains(cfg, ex, w, etaT);
    TrainingMoves(w, ex.nss, StepUpdate(cfg, ex, PredictAll(w, ex.nss), etaT));
    RuleMoves(cfg, ex, PredictAll(w, ex.nss), etaT, Gain(Flat(ex.nss), |w|));
  }

  /** On an example that meets the condition no step of the learner passes the label. */
  lemma TrainingDoesNotOvershoot(cfg: Config, w: seq<real>, ex: Example)
    requires |w| > 0 && Trains(cfg, ex) && ex.etaT >= 0.0 && ExampleCovered(cfg, ex, |w|)
    ensures NoOvershoot(cfg.loss, ex.target.value, PredictAll(w, ex.nss), PredictAll(SeqStep(cfg, w, ex), ex.nss))
  {
    assert ex.(etaT := ex.etaT) == ex;
    StepIsAfter(cfg, ex, w, ex.etaT);
    hide PredictAll, SeqStep, Gain, Flat, NoOvershoot, After, Covered;
    NeverOvershoots(cfg.loss, cfg.lo, cfg.hi, ex.target.value, ex.etaT, PredictAll(w, ex.nss), ex.norm,
                    Gain(Flat(ex.nss), |w|));
  }

  function Zeros(size: nat): (w: seq<real>)
    ensures |w| == size && forall i :: 0 <= i < size ==> w[i] == 0.0
  {
    seq(size, i => 0.0)
  }

  lemma ZerosPredict(nss: seq<seq<Feature>>, size: nat)
    requires size > 0
    ensures PredictAll(Zeros(size), nss) == 0.0
  {
    FlatPredict(Zeros(size), nss);
    ZeroWeights(Zeros(size), Flat(nss));
  }

  /** Any prediction is that of some weights, unless no update moves it. */
  lemma WeightsFor(nss: seq<seq<Feature>>, size: nat, p: real) returns (w: seq<real>)
    requires size > 0 && Gain(Flat(nss), size) > 0.0
    ensures |w| == size && PredictAll(w, nss) == p
  {
    hide PredictAll, TrainAll, Gain, Flat;
    var gain := Gain(Flat(nss), size);
    w := TrainAll(Zeros(size), nss, p / gain);
    ExampleShifts(Zeros(size), nss, p / gain);
    ZerosPredict(nss, size);
    QuotientTimes(p, gain);
  }

  lemma {:induction false} ZeroWeights(w: seq<real>, fs: seq<Feature>)
    requires |w| > 0 && forall i :: 0 <= i < |w| ==> w[i] == 0.0
    ensures SdAdd(w, fs) == 0.0
  {
    if fs != [] { ZeroWeights(w, fs[..|fs| - 1]); }
  }

  /** No rate and no weights make the learner's step pass the label, if and only if the condition is met. */
  lemma TrainingNeverOvershootsIff(cfg: Config, ex: Example, size: nat)
    requires size > 0 && Trains(cfg, ex)
    ensures ExampleCovered(cfg, ex, size) <==>
      (forall w, etaT :: |w| == size && etaT >= 0.0 ==> StepStays(cfg, ex, w, etaT))
  {
    var y, gain := ex.target.value, Gain(Flat(ex.nss), size);
    if ExampleCovered(cfg, ex, size) {
      forall w: seq<real>, etaT | |w| == size && etaT >= 0.0 ensures StepStays(cfg, ex, w, etaT) {
        TrainingDoesNotOvershoot(cfg, w, ex.(etaT := etaT));
      }
    } else {
      var etaT, p := SomeOvershoot(cfg.loss, cfg.lo, cfg.hi, y, ex.norm, gain);
      var w := WeightsFor(ex.nss, size, p);
      StepIsAfter(cfg, ex, w, etaT);
      assert !StepStays(cfg, ex, w, etaT);
    }
  }

  /** With every feature on a weight of its own it is the sum of squares that the normalizer has to cover. */
  lemma DistinctCovered(cfg: Config, ex: Example, size: nat)
    requires size > 0 && ex.target.Some? && Distinct(Flat(ex.nss), size)
    ensures ExampleCovered(cfg, ex, size)
      <==> Covered(cfg.loss, cfg.lo, cfg.hi, ex.target.value, ex.norm, SumSq(Flat(ex.nss)))
  {
    DistinctGain(Flat(ex.nss), size);
  }

  // ------------------------------------------------------------ where the normalizer falls short

  lemma {:induction false} UnitSquares(words: seq<Feature>, extra: seq<Feature>)
    requires Units(extra)
    ensures SumSq(words + extra) == SumSq(words) + |extra| as real
  {
    if extra == [] {
      assert words + extra == words;
    } else {
      var n := |extra| - 1;
      assert (words + extra)[..|words + extra| - 1] == words + extra[..n];
      UnitSquares(words, extra[..n]);
    }
  }

  lemma AllUnits(words: seq<Feature>)
    requires Units(words)
    ensures SumSq(words) == |words| as real
  {
    assert [] + words == words;
    UnitSquares([], words);
  }

  /** `total_sum_feat_sq` is one plus the squares of the features read. For features on weights of their own, the one
      pays for the constant feature or for one n-gram; every further feature of value one that is pushed afterwards is
      left out of it. */
  lemma OneExtraFeature(words: seq<Feature>, extra: seq<Feature>)
    requires Units(extra)
    ensures SumSq(words + extra) <= 1.0 + SumSq(words) <==> |extra| <= 1
  {
    UnitSquares(words, extra);
  }

  /** When all values are one, the normalizer covers the gain if and only if at most one feature was pushed afterwards
      and no two features share a weight. */
  lemma UnitsCoveredIff(words: seq<Feature>, extra: seq<Feature>, size: nat)
    requires size > 0 && Units(words) && Units(extra)
    ensures Gain(words + extra, size) <= 1.0 + SumSq(words) <==> |extra| <= 1 && Distinct(words + extra, size)
  {
    AllUnits(words);
    UnitGain(words + extra, size);
  }

  lemma {:induction false} EmittedUnits(words: seq<Feature>, gs: seq<SkipGrams.Gram>, M: nat)
    requires M > 0 && SkipGrams.AllFit(gs, |words|)
    ensures |SkipGrams.EmittedAll(words, gs, M)| == |gs| && Units(SkipGrams.EmittedAll(words, gs, M))
  {
    if gs != [] { EmittedUnits(words, gs[..|gs| - 1], M); }
  }

  /** The features `generateGrams` appends to a namespace. */
  function GramFeatures(words: seq<Feature>, ngram: nat, k: nat, M: nat): (grams: seq<Feature>)
    requires M > 0
    ensures |grams| == |SkipGrams.Generated(ngram, k, |words|)| && Units(grams)
  {
    SkipGrams.GeneratedFit(ngram, k, |words|);
    EmittedUnits(words, SkipGrams.Generated(ngram, k, |words|), M);
    SkipGrams.EmittedAll(words, SkipGrams.Generated(ngram, k, |words|), M)
  }

  /** After `generateGrams` the normalizer taken before covers the namespace's squares exactly when at most one
      gram was generated. */
  lemma GramsAreNotCounted(words: seq<Feature>, ngram: nat, k: nat, M: nat)
    requires M > 0
    ensures SumSq(words + GramFeatures(words, ngram, k, M)) <= 1.0 + SumSq(words)
      <==> |SkipGrams.Generated(ngram, k, |words|)| <= 1
  {
    OneExtraFeature(words, GramFeatures(words, ngram, k, M));
  }

  /** Words of value one: it covers what an update moves exactly when, besides, no two of the words and grams share a
      weight. */
  lemma GramsCoveredIff(words: seq<Feature>, ngram: nat, k: nat, M: nat, size: nat)
    requires M > 0 && size > 0 && Units(words)
    ensures Gain(words + GramFeatures(words, ngram, k, M), size) <= 1.0 + SumSq(words)
      <==> |SkipGrams.Generated(ngram, k, |words|)| <= 1 && Distinct(words + GramFeatures(words, ngram, k, M), size)
  {
    UnitsCoveredIff(words, GramFeatures(words, ngram, k, M), size);
  }

  // ------------------------------------------------------------ two lines of text

  /** The full step towards the label 1 from weights of zero, at a rate of 2. */
  lemma FullStepPasses(cfg: Config, ex: Example, size: nat)
    requires size > 0 && cfg.training && (cfg.loss == Quantile(0.5) || cfg.loss == Hinge)
    requires cfg.lo == 0.0 && cfg.hi == 1.0 && ex.target == Some(1.0) && Gain(Flat(ex.nss), size) > ex.norm
    ensures !StepStays(cfg, ex, Zeros(size), 2.0)
  {
    hide Gain, Flat, PredictAll, SeqStep, Zeros;
    var gain := Gain(Flat(ex.nss), size);
    StepIsAfter(cfg, ex, Zeros(size), 2.0);
    ZerosPredict(ex.nss, size);
    FullStep(cfg.loss, ex.norm, gain);
  }

  lemma FullStep(loss: Loss, n: real, gain: real)
    requires (loss == Quantile(0.5) || loss == Hinge) && gain > n > 0.0
    ensures After(loss, 0.0, 1.0, 1.0, 2.0, 0.0, n, gain) > 1.0
  {
    assert GetUpdate(loss, Finalize(0.0, 1.0, 0.0), 1.0, 2.0, n) == 1.0 / n;
    Scaled(1.0, n, gain);
  }

  lemma OneNamespace(fs: seq<Feature>)
    ensures Flat([fs]) == fs
  {
    assert [fs][..0] == [] && Flat([]) + fs == fs;
  }

  lemma TwiceOnWeight(a: Feature, size: nat)
    requires size > 0 && a.x == 1.0
    ensures Gain([a, a], size) == 4.0
  {
    assert [a] + [a] == [a, a] && [a][..0] == [];
    assert OnWeight([a], size, a.idx % size) == OnWeight([], size, a.idx % size) + a.x;
    UnitGain([a], size);
    GainSnoc([a], a, size);
  }

  /** `1 | a a`: the word lies on its weight twice, so the normalizer is 3 and the gain 4. The label 1 is inside the
      clamp and the normalizer above the sum of squares, and yet both losses go past the label. */
  lemma RepeatedWordOvershoots(cfg: Config, ex: Example, a: Feature, size: nat)
    requires size > 0 && cfg.training && (cfg.loss == Quantile(0.5) || cfg.loss == Hinge)
    requires cfg.lo == 0.0 && cfg.hi == 1.0 && ex.target == Some(1.0)
    requires a.x == 1.0 && ex.nss == [[a, a]] && ex.norm == 1.0 + SumSq([a, a])
    ensures SumSq([a, a]) == 2.0 && Gain(Flat(ex.nss), size) == 4.0 > ex.norm
    ensures !StepStays(cfg, ex, Zeros(size), 2.0)
  {
    var fs := [a, a];
    assert Units(fs);
    hide *;
    AllUnits(fs);
    OneNamespace(fs);
    TwiceOnWeight(a, size);
    FullStepPasses(cfg, ex, size);
  }

  lemma ThreeWordsTwoGrams()
    ensures |SkipGrams.Generated(2, 0, 3)| == 2
  {
    assert [0] + [1] == [0, 1];
    assert SkipGrams.Visits(1, 0, [0], 0) == SkipGrams.Visits(0, 0, [0, 1], 0) == [[0, 1]];
    SkipGrams.VisitsAreMasks(1, 0, [0], 0);
    SkipGrams.GramsOfAt([0, 1], 3, 0);
    assert SkipGrams.Grams([[0, 1]], 3) == SkipGrams.GramsOf([0, 1], 3, 0) + SkipGrams.Grams([], 3);
    assert SkipGrams.GramsOfOrder(1, 0, 3) == SkipGrams.Grams([[0, 1]], 3);
    assert SkipGrams.Generated(1, 0, 3) == [];
  }

  lemma ThreeWordsAndGrams(words: seq<Feature>, M: nat, size: nat)
    requires size > 0 && M > 0 && |words| == 3 && Units(words)
    ensures var all := words + GramFeatures(words, 2, 0, M);
      SumSq(words) == 3.0 && SumSq(all) == 5.0 && Gain(all, size) >= 5.0
  {
    ThreeWordsTwoGrams();
    hide GramFeatures, SkipGrams.Generated, Gain, SumSq, Distinct;
    var grams := GramFeatures(words, 2, 0, M);
    AllUnits(words);
    UnitSquares(words, grams);
    UnitGain(words + grams, size);
  }

  /** Three words of value one with bigrams, whatever their hashes: the normalizer is 4, the squares add up to 5 and the
      gain to at least that, and both losses go past the label 1 inside the clamp from 0 to 1. */
  lemma BigramsOvershoot(cfg: Config, ex: Example, words: seq<Feature>, M: nat, size: nat)
    requires size > 0 && M > 0 && cfg.training && (cfg.loss == Quantile(0.5) || cfg.loss == Hinge)
    requires cfg.lo == 0.0 && cfg.hi == 1.0 && ex.target == Some(1.0)
    requires |words| == 3 && Units(words)
    requires ex.nss == [words + GramFeatures(words, 2, 0, M)] && ex.norm == 1.0 + SumSq(words)
    ensures ex.norm == 4.0 && SumSq(ex.nss[0]) == 5.0 && Gain(Flat(ex.nss), size) >= 5.0
    ensures !StepStays(cfg, ex, Zeros(size), 2.0)
  {
    hide *;
    ThreeWordsAndGrams(words, M, size);
    OneNamespace(words + GramFeatures(words, 2, 0, M));
    FullStepPasses(cfg, ex, size);
  }
}
