/** Update rules and the sequential learner: predict example e, train on it if it is labelled,
    then go on to e+1 (src/loss_functions.cc, src/gd.cc with one thread). */
module Learner {
  import opened Basics
  import opened Features
  import opened Partition

  datatype Loss = Hinge | Quantile(tau: real)

  /** `hingeloss::getUpdate` and `quantileloss::getUpdate`; `y` is the label. */
  function GetUpdate(loss: Loss, prediction: real, y: real, etaT: real, norm: real): real
    requires norm > 0.0 && (loss.Quantile? ==> 0.0 < loss.tau < 1.0)
  {
    match loss
    case Hinge =>
      if y * prediction >= y * y then 0.0
      else
        var s1 := (y * y - y * prediction) / (y * y);
        y * Min(s1, etaT) / norm
    case Quantile(tau) =>
      var e := y - prediction;
      if e == 0.0 then 0.0
      else if e > 0.0 then tau * Min(etaT, e / tau) / norm
      else -(1.0 - tau) * Min(etaT, -e / (1.0 - tau)) / norm
  }

  function Min(a: real, b: real): real {
    if a < b then a else b
  }

  /** `finalize_prediction` (a real is never NaN). */
  function Finalize(lo: real, hi: real, p: real): real {
    if p > hi then hi else if p < lo then lo else p
  }

  /** A parsed example: its namespaces, its label (absent for FLT_MAX), the decayed learning rate
      `eta / t^power_t * weight` and `total_sum_feat_sq`. */
  datatype RawExample = RawExample(nss: seq<seq<Feature>>, target: Option<real>, etaT: real, norm: real)
  type Example = ex: RawExample | ex.norm > 0.0 witness RawExample([], None, 0.0, 1.0)

  /** `T` threads of `E` weights each, `R` ring slots. */
  datatype RawConfig = RawConfig(T: nat, R: nat, E: nat, w0: seq<real>,
                                 lo: real, hi: real, loss: Loss, training: bool)
  type Config = c: RawConfig
    | c.T > 0 && c.R > 0 && c.E > 0 && |c.w0| == Base(c.T, c.E) && |c.w0| > 0
      && (c.loss.Quantile? ==> 0.0 < c.loss.tau < 1.0)
    witness RawConfig(1, 1, 1, [0.0], 0.0, 1.0, Hinge, true)

  predicate Trains(cfg: Config, ex: Example) {
    cfg.training && ex.target.Some?
  }

  /** `eta_round` as `local_predict` computes it from the finalized prediction. */
  function Rate(cfg: Config, ex: Example, final: real): real {
    match ex.target
    case None => 0.0
    case Some(y) => GetUpdate(cfg.loss, final, y, ex.etaT, ex.norm)
  }

  function SeqFinal(cfg: Config, w: seq<real>, ex: Example): real
    requires |w| > 0
  {
    Finalize(cfg.lo, cfg.hi, PredictAll(w, ex.nss))
  }

  /** One turn of the sequential learner. */
  function SeqStep(cfg: Config, w: seq<real>, ex: Example): (r: seq<real>)
    requires |w| > 0
    ensures |r| == |w|
  {
    if Trains(cfg, ex) then TrainAll(w, ex.nss, Rate(cfg, ex, SeqFinal(cfg, w, ex))) else w
  }

  /** The weights after the first `e` examples. */
  function SeqWeights(cfg: Config, hist: seq<Example>, e: nat): (r: seq<real>)
    requires e <= |hist|
    ensures |r| == |cfg.w0|
  {
    if e == 0 then cfg.w0 else SeqStep(cfg, SeqWeights(cfg, hist, e - 1), hist[e - 1])
  }

  /** What the sequential learner outputs for example `e`. */
  function SeqPrediction(cfg: Config, hist: seq<Example>, e: nat): real
    requires e < |hist|
  {
    SeqFinal(cfg, SeqWeights(cfg, hist, e), hist[e])
  }

  /** How many of the first `e` examples are trained on. */
  function TrainCount(cfg: Config, hist: seq<Example>, e: nat): nat
    requires e <= |hist|
  {
    if e == 0 then 0
    else TrainCount(cfg, hist, e - 1) + (if Trains(cfg, hist[e - 1]) then 1 else 0)
  }
}
