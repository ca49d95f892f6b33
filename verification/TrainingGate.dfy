/** Which examples are learned from: labelled ones, and none at all when only testing (src/gd.cc, src/parse_args.cc). */
module TrainingGate {
  import opened Basics
  import opened Features
  import opened Partition
  import opened Learner
  import opened Shards
  import opened Protocol
  import opened ProtocolInv
  import opened ProtocolSteps
  import opened ProtocolTheorems

  // ------------------------------------------------------------ one example

  /** With `--testonly` no example changes a weight, neither of the sequential learner nor of any thread. */
  lemma TestingLearnsNothing(cfg: Config, w: seq<real>, ws: seq<seq<real>>, ex: Example)
    requires !cfg.training && |w| > 0 && IsShards(cfg, ws)
    ensures SeqStep(cfg, w, ex) == w && Turn(cfg, ws, ex) == ws
  {
  }

  /** An example without a label never does. */
  lemma UnlabelledLearnsNothing(cfg: Config, w: seq<real>, ws: seq<seq<real>>, ex: Example)
    requires ex.target == None && |w| > 0 && IsShards(cfg, ws)
    ensures SeqStep(cfg, w, ex) == w && Turn(cfg, ws, ex) == ws
  {
  }

  /** Every other one is learned from, by the update its own prediction and label call for. */
  lemma LabelledLearns(cfg: Config, w: seq<real>, ws: seq<seq<real>>, ex: Example, y: real)
    requires cfg.training && ex.target == Some(y) && |w| > 0 && IsShards(cfg, ws)
    ensures var p := Finalize(cfg.lo, cfg.hi, PredictAll(w, ex.nss));
      SeqStep(cfg, w, ex) == TrainAll(w, ex.nss, GetUpdate(cfg.loss, p, y, ex.etaT, ex.norm))
    ensures var p := Finalize(cfg.lo, cfg.hi, Sum(DotsOf(cfg, ws, ex)));
      forall t :: 0 <= t < cfg.T ==>
        Turn(cfg, ws, ex)[t] == InlineTrain(ws[t], ex.nss, t, GetUpdate(cfg.loss, p, y, ex.etaT, ex.norm))
  {
  }

  /** The labelled ones among the first `e` examples. */
  function Labelled(hist: seq<Example>, e: nat): set<int>
    requires e <= |hist|
  {
    set i | 0 <= i < e && hist[i].target.Some?
  }

  lemma {:induction false} CountsLabels(cfg: Config, hist: seq<Example>, e: nat)
    requires e <= |hist|
    ensures TrainCount(cfg, hist, e) == if cfg.training then |Labelled(hist, e)| else 0
  {
    if e > 0 {
      CountsLabels(cfg, hist, e - 1);
      assert Labelled(hist, e) == Labelled(hist, e - 1) + if hist[e - 1].target.Some? then {e - 1} else {};
    }
  }

  lemma {:induction false} TestingAfter(cfg: Config, hist: seq<Example>, e: nat)
    requires !cfg.training && e <= |hist|
    ensures After(cfg, hist, e) == Start(cfg) && SeqWeights(cfg, hist, e) == cfg.w0
  {
    if e > 0 {
      TestingAfter(cfg, hist, e - 1);
      TestingLearnsNothing(cfg, SeqWeights(cfg, hist, e - 1), After(cfg, hist, e - 1), hist[e - 1]);
    }
  }

  // ------------------------------------------------------------ whole runs

  /** While testing, in every state of every run all threads' weights are the slices they started with, and nothing has
      ever been put on the delay ring. */
  lemma TestingKeepsTheModel(cfg: Config, s: State)
    requires Reachable(cfg, s) && !cfg.training
    ensures Shape(cfg, s) && s.local == 0 && RingEmpty(cfg, s)
    ensures forall t :: 0 <= t < cfg.T ==> Base(t, cfg.E) + cfg.E <= |cfg.w0| && s.weights[t] == Slice(cfg.w0, cfg.E, t)
  {
    TakesTurns(cfg, s);
    ReachableInv(cfg, s);
    Unpack(cfg, s, 0);
    CountsLabels(cfg, s.hist, s.closed);
    hide Inv, InvWindow, InvOut, InvOpen, InvLocks, InvThreads, InvThread, InvWeights, Reachable, TrainCount;
    forall t | 0 <= t < cfg.T
      ensures Base(t, cfg.E) + cfg.E <= |cfg.w0| && s.weights[t] == Slice(cfg.w0, cfg.E, t)
    {
      SliceFits(cfg.E, t, cfg.T);
      TestingAfter(cfg, s.hist, Trained(s, t));
      assert s.weights[t] == Shard(cfg, s.hist, Trained(s, t), t);
    }
  }

  /** While training, the delay ring has been given exactly the labelled examples that all threads have predicted. */
  lemma TrainsOnLabels(cfg: Config, s: State)
    requires Reachable(cfg, s) && cfg.training
    ensures Shape(cfg, s) && s.closed <= |s.hist|
    ensures s.local + (if s.phase.Pushing? then 1 else 0) == |Labelled(s.hist, s.closed)|
    ensures forall t :: 0 <= t < cfg.T && s.pc[t].Pred? ==>
              0 < s.used[t] <= |s.hist| && s.didx[t] == |Labelled(s.hist, s.used[t] - 1)|
  {
    ReachableInv(cfg, s);
    Unpack(cfg, s, 0);
    CountsLabels(cfg, s.hist, s.closed);
    hide Inv, InvWindow, InvOut, InvOpen, InvLocks, InvThreads, InvThread, InvWeights, TrainCount;
    forall t | 0 <= t < cfg.T && s.pc[t].Pred?
      ensures 0 < s.used[t] <= |s.hist| && s.didx[t] == |Labelled(s.hist, s.used[t] - 1)|
    {
      PredictsInTurn(cfg, s, t, s.pc[t].slot);
      CountsLabels(cfg, s.hist, s.used[t] - 1);
    }
  }
}
