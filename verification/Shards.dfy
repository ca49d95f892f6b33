/** What the learner threads compute together, example by example: every thread adds the part of the prediction that
    `setup_example` filed under its slice, and trains that part of its slice (src/gd.cc, src/parser.cc). For namespaces
    in slice order this is the sequential learner; for others it is still a function of the examples alone. */
module Shards {
  import opened Features
  import opened Partition
  import opened Learner

  /** One weight vector of `E` entries per thread. */
  predicate IsShards(cfg: Config, ws: seq<seq<real>>) {
    |ws| == cfg.T && forall t :: 0 <= t < cfg.T ==> |ws[t]| == cfg.E
  }

  function StartSlice(cfg: Config, t: nat): (w: seq<real>)
    requires t < cfg.T
    ensures |w| == cfg.E
  {
    SliceFits(cfg.E, t, cfg.T);
    Slice(cfg.w0, cfg.E, t)
  }

  function Start(cfg: Config): (ws: seq<seq<real>>)
    ensures IsShards(cfg, ws)
  {
    seq(cfg.T, t requires 0 <= t < cfg.T => StartSlice(cfg, t))
  }

  /** What each thread adds to the prediction. */
  function DotsOf(cfg: Config, ws: seq<seq<real>>, ex: Example): (d: seq<real>)
    requires IsShards(cfg, ws)
    ensures |d| == cfg.T && forall t :: 0 <= t < cfg.T ==> d[t] == InlinePredict(ws[t], ex.nss, t)
  {
    seq(cfg.T, t requires 0 <= t < cfg.T => InlinePredict(ws[t], ex.nss, t))
  }

  function Sum(v: seq<real>): real {
    if v == [] then 0.0 else Sum(v[..|v|-1]) + v[|v|-1]
  }

  function FinalOf(cfg: Config, ws: seq<seq<real>>, ex: Example): real
    requires IsShards(cfg, ws)
  {
    Finalize(cfg.lo, cfg.hi, Sum(DotsOf(cfg, ws, ex)))
  }

  /** One turn of all threads. */
  function Turn(cfg: Config, ws: seq<seq<real>>, ex: Example): (r: seq<seq<real>>)
    requires IsShards(cfg, ws)
    ensures IsShards(cfg, r)
    ensures Trains(cfg, ex) ==> forall t :: 0 <= t < cfg.T ==>
              r[t] == InlineTrain(ws[t], ex.nss, t, Rate(cfg, ex, FinalOf(cfg, ws, ex)))
    ensures !Trains(cfg, ex) ==> r == ws
  {
    if Trains(cfg, ex) then
      seq(cfg.T, t requires 0 <= t < cfg.T => InlineTrain(ws[t], ex.nss, t, Rate(cfg, ex, FinalOf(cfg, ws, ex))))
    else ws
  }

  /** The threads' weights after the first `e` examples. */
  function After(cfg: Config, hist: seq<Example>, e: nat): (ws: seq<seq<real>>)
    requires e <= |hist|
    ensures IsShards(cfg, ws)
  {
    if e == 0 then Start(cfg) else Turn(cfg, After(cfg, hist, e - 1), hist[e - 1])
  }

  function Shard(cfg: Config, hist: seq<Example>, e: nat, t: nat): (w: seq<real>)
    requires e <= |hist| && t < cfg.T
    ensures |w| == cfg.E
  {
    After(cfg, hist, e)[t]
  }

  function Dots(cfg: Config, hist: seq<Example>, e: nat): (d: seq<real>)
    requires e < |hist|
    ensures |d| == cfg.T
    ensures forall t :: 0 <= t < cfg.T ==> d[t] == InlinePredict(Shard(cfg, hist, e, t), hist[e].nss, t)
  {
    DotsOf(cfg, After(cfg, hist, e), hist[e])
  }

  /** What the threads together output for example `e`. */
  function Prediction(cfg: Config, hist: seq<Example>, e: nat): real
    requires e < |hist|
  {
    FinalOf(cfg, After(cfg, hist, e), hist[e])
  }

  lemma PredictionIs(cfg: Config, hist: seq<Example>, e: nat)
    requires e < |hist|
    ensures Prediction(cfg, hist, e) == Finalize(cfg.lo, cfg.hi, Sum(Dots(cfg, hist, e)))
  {
  }

  /** Training on example `e` at the rate of its prediction leads from one set of weights to the next. */
  lemma NextShard(cfg: Config, hist: seq<Example>, e: nat, t: nat)
    requires e < |hist| && t < cfg.T
    ensures Shard(cfg, hist, e + 1, t) ==
      if Trains(cfg, hist[e])
      then InlineTrain(Shard(cfg, hist, e, t), hist[e].nss, t, Rate(cfg, hist[e], Prediction(cfg, hist, e)))
      else Shard(cfg, hist, e, t)
  {
  }

  /** Later examples do not change what came before. */
  lemma {:induction false} AfterExtends(cfg: Config, hist: seq<Example>, ex: Example, e: nat)
    requires e <= |hist|
    ensures After(cfg, hist + [ex], e) == After(cfg, hist, e)
    ensures TrainCount(cfg, hist + [ex], e) == TrainCount(cfg, hist, e)
  {
    hide Turn;
    if e > 0 { AfterExtends(cfg, hist, ex, e - 1); }
  }

  /** Examples without training leave all weights alone. */
  lemma {:induction false} UntrainedBetween(cfg: Config, hist: seq<Example>, a: nat, b: nat)
    requires a <= b <= |hist|
    requires forall e :: a <= e < b ==> !Trains(cfg, hist[e])
    ensures After(cfg, hist, b) == After(cfg, hist, a)
    ensures TrainCount(cfg, hist, b) == TrainCount(cfg, hist, a)
  {
    if a < b { UntrainedBetween(cfg, hist, a, b - 1); }
  }

  // ------------------------------------------------------------ examples in slice order

  /** Every namespace is in slice order and within the weights. */
  ghost predicate OrderedExamples(cfg: Config, hist: seq<Example>, n: nat) {
    n <= |hist| && forall e :: 0 <= e < n ==> Ordered(hist[e].nss, cfg.E, |cfg.w0|)
  }

  lemma SumSnoc(d: seq<real>, n: nat)
    requires 0 < n <= |d|
    ensures Sum(d[..n]) == Sum(d[..n - 1]) + d[n - 1]
  {
    assert d[..n][..n - 1] == d[..n - 1];
  }

  lemma {:induction false} DotsAddUp(w: seq<real>, nss: seq<seq<Feature>>, E: nat, d: seq<real>, n: nat)
    requires E > 0 && n <= |d| && Base(n, E) <= |w|
    requires forall t :: 0 <= t < n ==> Base(t, E) + E <= |w| && d[t] == InlinePredict(Slice(w, E, t), nss, t)
    ensures Sum(d[..n]) == SumOfParts(w, nss, E, n)
  {
    hide InlinePredict, Slice;
    if n > 0 {
      assert Base(n - 1, E) <= Base(n, E);
      DotsAddUp(w, nss, E, d, n - 1);
      SumSnoc(d, n);
    }
  }

  /** Slices of the sequential weights predict what the sequential learner predicts. */
  lemma OrderedPrediction(cfg: Config, w: seq<real>, ws: seq<seq<real>>, ex: Example)
    requires |w| == |cfg.w0| && IsShards(cfg, ws) && Ordered(ex.nss, cfg.E, |w|)
    requires forall t :: 0 <= t < cfg.T ==> Base(t, cfg.E) + cfg.E <= |w| && ws[t] == Slice(w, cfg.E, t)
    ensures FinalOf(cfg, ws, ex) == SeqFinal(cfg, w, ex)
  {
    DotsAddUp(w, ex.nss, cfg.E, DotsOf(cfg, ws, ex), cfg.T);
    assert DotsOf(cfg, ws, ex)[..cfg.T] == DotsOf(cfg, ws, ex);
    PartitionedPrediction(w, ex.nss, cfg.E, cfg.T);
  }

  lemma OrderedTurn(cfg: Config, w: seq<real>, ws: seq<seq<real>>, ex: Example, t: nat)
    requires |w| == |cfg.w0| && IsShards(cfg, ws) && Ordered(ex.nss, cfg.E, |w|) && t < cfg.T
    requires forall k :: 0 <= k < cfg.T ==> Base(k, cfg.E) + cfg.E <= |w| && ws[k] == Slice(w, cfg.E, k)
    ensures Base(t, cfg.E) + cfg.E <= |w| && Turn(cfg, ws, ex)[t] == Slice(SeqStep(cfg, w, ex), cfg.E, t)
  {
    OrderedPrediction(cfg, w, ws, ex);
    if Trains(cfg, ex) {
      PartitionedTraining(w, ex.nss, cfg.E, t, Rate(cfg, ex, SeqFinal(cfg, w, ex)));
    }
  }

  /** Slice `t` of the sequential weights after `e` examples. */
  function SeqSlice(cfg: Config, hist: seq<Example>, e: nat, t: nat): (r: seq<real>)
    requires e <= |hist| && t < cfg.T
    ensures |r| == cfg.E
  {
    SliceFits(cfg.E, t, cfg.T);
    Slice(SeqWeights(cfg, hist, e), cfg.E, t)
  }

  lemma OrderedNext(cfg: Config, hist: seq<Example>, e: nat, t: nat)
    requires e < |hist| && t < cfg.T && OrderedExamples(cfg, hist, e + 1)
    requires forall k :: 0 <= k < cfg.T ==> Shard(cfg, hist, e, k) == SeqSlice(cfg, hist, e, k)
    ensures Shard(cfg, hist, e + 1, t) == SeqSlice(cfg, hist, e + 1, t)
  {
    hide Turn, SeqStep, Slice;
    var w, ws := SeqWeights(cfg, hist, e), After(cfg, hist, e);
    forall k | 0 <= k < cfg.T ensures Base(k, cfg.E) + cfg.E <= |w| && ws[k] == Slice(w, cfg.E, k) {
      SliceFits(cfg.E, k, cfg.T);
      assert Shard(cfg, hist, e, k) == SeqSlice(cfg, hist, e, k);
    }
    OrderedTurn(cfg, w, ws, hist[e], t);
  }

  /** On examples in slice order the threads' weights are the slices of the sequential learner's. */
  lemma {:induction false} OrderedAfter(cfg: Config, hist: seq<Example>, e: nat)
    requires e <= |hist| && OrderedExamples(cfg, hist, e)
    ensures forall t :: 0 <= t < cfg.T ==> Shard(cfg, hist, e, t) == SeqSlice(cfg, hist, e, t)
  {
    if e > 0 {
      OrderedAfter(cfg, hist, e - 1);
      hide Shard, SeqSlice;
      forall t | 0 <= t < cfg.T ensures Shard(cfg, hist, e, t) == SeqSlice(cfg, hist, e, t) {
        OrderedNext(cfg, hist, e - 1, t);
      }
    }
  }

  lemma OrderedPredictions(cfg: Config, hist: seq<Example>, e: nat)
    requires e < |hist| && OrderedExamples(cfg, hist, e + 1)
    ensures Prediction(cfg, hist, e) == SeqPrediction(cfg, hist, e)
  {
    OrderedAfter(cfg, hist, e);
    hide FinalOf, SeqFinal, Slice;
    var w, ws := SeqWeights(cfg, hist, e), After(cfg, hist, e);
    forall k | 0 <= k < cfg.T ensures Base(k, cfg.E) + cfg.E <= |w| && ws[k] == Slice(w, cfg.E, k) {
      SliceFits(cfg.E, k, cfg.T);
      assert Shard(cfg, hist, e, k) == SeqSlice(cfg, hist, e, k);
    }
    OrderedPrediction(cfg, w, ws, hist[e]);
  }
}
