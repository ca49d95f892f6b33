/** What every run of the multithreaded learner guarantees. */
module ProtocolTheorems {
  import opened Modulus
  import opened Basics
  import opened Features
  import opened Partition
  import opened SliceOrder
  import opened Learner
  import opened Shards
  import opened Counting
  import opened Protocol
  import opened ProtocolInv
  import opened ProtocolSteps

  /** The state after a schedule; `None` if the schedule runs a blocked step. */
  ghost function Exec(cfg: Config, s: State, evs: seq<Event>): Option<State>
    decreases |evs|
  {
    if evs == [] then Some(s)
    else if !Shape(cfg, s) then None
    else match Step(cfg, s, evs[0])
      case None => None
      case Some(s') => Exec(cfg, s', evs[1..])
  }

  ghost predicate Reachable(cfg: Config, s: State) {
    exists evs :: Exec(cfg, Init(cfg), evs) == Some(s)
  }

  lemma {:induction false} ExecKeeps(cfg: Config, s: State, evs: seq<Event>)
    requires Inv(cfg, s) && Exec(cfg, s, evs).Some?
    ensures Inv(cfg, Exec(cfg, s, evs).value)
    decreases |evs|
  {
    if evs != [] {
      StepKeeps(cfg, s, evs[0]);
      ExecKeeps(cfg, Step(cfg, s, evs[0]).value, evs[1..]);
    }
  }

  lemma ReachableInv(cfg: Config, s: State)
    requires Reachable(cfg, s)
    ensures Inv(cfg, s)
  {
    var evs :| Exec(cfg, Init(cfg), evs) == Some(s);
    InitInv(cfg);
    ExecKeeps(cfg, Init(cfg), evs);
  }

  lemma {:induction false} ExecConcat(cfg: Config, s: State, a: seq<Event>, b: seq<Event>)
    requires Exec(cfg, s, a).Some?
    ensures Exec(cfg, s, a + b) == Exec(cfg, Exec(cfg, s, a).value, b)
    decreases |a|
  {
    if a == [] {
      assert a + b == b;
    } else {
      assert (a + b)[1..] == a[1..] + b;
      ExecConcat(cfg, Step(cfg, s, a[0]).value, a[1..], b);
    }
  }

  // ------------------------------------------------------------ refinement

  /** In every reachable state, whatever the interleaving and whatever the examples: the outputs so far are those
      the threads' turns give, in order and once each, and every thread's weights are those after the examples that
      thread has trained on, of which at most the latest closed one is missing. */
  lemma TakesTurns(cfg: Config, s: State)
    requires Reachable(cfg, s)
    ensures Shape(cfg, s) && |s.out| <= s.closed <= |s.hist|
    ensures forall e :: 0 <= e < |s.out| ==> s.out[e] == Prediction(cfg, s.hist, e)
    ensures forall t :: 0 <= t < cfg.T ==> |s.out| <= Trained(s, t) <= s.closed
    ensures forall t :: 0 <= t < cfg.T ==> s.weights[t] == Shard(cfg, s.hist, Trained(s, t), t)
  {
    ReachableInv(cfg, s);
    hide Shard, Prediction, Shape;
  }

  /** While the examples are in slice order, outputs and weights are the sequential learner's. */
  lemma RefinesSequential(cfg: Config, s: State)
    requires Reachable(cfg, s)
    ensures Shape(cfg, s) && |s.out| <= s.closed <= |s.hist|
    ensures forall e :: 0 <= e < |s.out| && OrderedExamples(cfg, s.hist, e + 1) ==>
              s.out[e] == SeqPrediction(cfg, s.hist, e)
    ensures forall t :: 0 <= t < cfg.T ==> |s.out| <= Trained(s, t) <= s.closed
    ensures forall t :: 0 <= t < cfg.T && OrderedExamples(cfg, s.hist, Trained(s, t)) ==>
              s.weights[t] == SeqSlice(cfg, s.hist, Trained(s, t), t)
  {
    TakesTurns(cfg, s);
    hide *;
    forall e | 0 <= e < |s.out| && OrderedExamples(cfg, s.hist, e + 1)
      ensures s.out[e] == SeqPrediction(cfg, s.hist, e)
    {
      OrderedPredictions(cfg, s.hist, e);
    }
    forall t | 0 <= t < cfg.T && OrderedExamples(cfg, s.hist, Trained(s, t))
      ensures s.weights[t] == SeqSlice(cfg, s.hist, Trained(s, t), t)
    {
      OrderedAfter(cfg, s.hist, Trained(s, t));
    }
  }

  /** One thread is sequential on all examples within its weights. */
  lemma OneThreadIsSequential(cfg: Config, s: State)
    requires Reachable(cfg, s) && cfg.T == 1
    requires forall e, n :: 0 <= e < |s.hist| && 0 <= n < |s.hist[e].nss| ==> Within(s.hist[e].nss[n], 0, |cfg.w0|)
    ensures forall e :: 0 <= e < |s.out| && e < |s.hist| ==> s.out[e] == SeqPrediction(cfg, s.hist, e)
  {
    RefinesSequential(cfg, s);
    hide SeqPrediction;
    forall k | 0 <= k < |s.hist| ensures Ordered(s.hist[k].nss, cfg.E, |cfg.w0|) {
      OneThreadInOrder(s.hist[k].nss, cfg.E);
    }
    forall e | 0 <= e < |s.out| ensures s.out[e] == SeqPrediction(cfg, s.hist, e) {
      assert OrderedExamples(cfg, s.hist, e + 1);
    }
  }

  /** The weights of all threads side by side. */
  function Concatenated(ws: seq<seq<real>>): seq<real> {
    if ws == [] then [] else Concatenated(ws[..|ws|-1]) + ws[|ws|-1]
  }

  lemma PrefixAndSlice(w: seq<real>, E: nat, n: nat)
    requires Base(n, E) + E <= |w|
    ensures Base(n + 1, E) <= |w| && w[..Base(n + 1, E)] == w[..Base(n, E)] + Slice(w, E, n)
  {
  }

  lemma {:induction false} ConcatenatedSlices(w: seq<real>, ws: seq<seq<real>>, E: nat, n: nat)
    requires n <= |ws| && Base(n, E) <= |w|
    requires forall t :: 0 <= t < n ==> Base(t, E) + E <= |w| && ws[t] == Slice(w, E, t)
    ensures Concatenated(ws[..n]) == w[..Base(n, E)]
  {
    hide Slice;
    if n > 0 {
      PrefixAndSlice(w, E, n - 1);
      ConcatenatedSlices(w, ws, E, n - 1);
      assert ws[..n][..n - 1] == ws[..n - 1];
    }
  }

  lemma SlicesSideBySide(cfg: Config, hist: seq<Example>, e: nat, ws: seq<seq<real>>)
    requires e <= |hist| && |ws| == cfg.T && forall t :: 0 <= t < cfg.T ==> ws[t] == SeqSlice(cfg, hist, e, t)
    ensures Concatenated(ws) == SeqWeights(cfg, hist, e)
  {
    var w := SeqWeights(cfg, hist, e);
    hide Slice, SeqWeights;
    forall t | 0 <= t < cfg.T ensures Base(t, cfg.E) + cfg.E <= |w| && ws[t] == Slice(w, cfg.E, t) {
      SliceFits(cfg.E, t, cfg.T);
    }
    ConcatenatedSlices(w, ws, cfg.E, cfg.T);
    assert ws[..cfg.T] == ws;
    assert w[..Base(cfg.T, cfg.E)] == w;
  }

  /** Between examples the threads' slices together are the sequential learner's weights. */
  lemma QuiescentWeights(cfg: Config, s: State)
    requires Reachable(cfg, s) && s.phase.Open? && OrderedExamples(cfg, s.hist, s.closed)
    ensures s.closed <= |s.hist|
    ensures Concatenated(s.weights) == SeqWeights(cfg, s.hist, s.closed)
  {
    TakesTurns(cfg, s);
    OrderedAfter(cfg, s.hist, s.closed);
    hide Shard, SeqSlice, OrderedExamples;
    forall t | 0 <= t < cfg.T ensures s.weights[t] == SeqSlice(cfg, s.hist, s.closed, t) {
      assert Trained(s, t) == s.closed;
    }
    SlicesSideBySide(cfg, s.hist, s.closed, s.weights);
  }

  /** A thread that is about to predict example e works from a slot that holds e, with every earlier labelled example
      already trained on and nothing else. */
  lemma PredictsInTurn(cfg: Config, s: State, t: nat, j: nat)
    requires Reachable(cfg, s) && t < cfg.T && t < |s.pc| && s.pc[t] == Pred(j)
    ensures Shape(cfg, s) && 0 < s.used[t] <= |s.hist|
    ensures var e := s.used[t] - 1;
      && s.slots[j].inUse && s.slots[j].ex == s.hist[e]
      && s.weights[t] == Shard(cfg, s.hist, e, t)
      && s.didx[t] == TrainCount(cfg, s.hist, e)
  {
    ReachableInv(cfg, s);
    Unpack(cfg, s, t);
    var e := s.used[t] - 1;
    assert OpenSlot(cfg, s, e);
    assert InUseAt(cfg, s, e);
    assert s.local == TrainCount(cfg, s.hist, s.closed);
    PredSlice(cfg, s, t);
    UntrainedBetween(cfg, s.hist, s.closed, e);
  }

  /** In slice order this is slice `t` of the sequential weights before `e`. */
  lemma PredictsSequentially(cfg: Config, s: State, t: nat, j: nat)
    requires Reachable(cfg, s) && t < cfg.T && t < |s.pc| && s.pc[t] == Pred(j)
    ensures Shape(cfg, s) && 0 < s.used[t] <= |s.hist| && s.slots[j].ex == s.hist[s.used[t] - 1]
    ensures OrderedExamples(cfg, s.hist, s.used[t] - 1) ==> s.weights[t] == SeqSlice(cfg, s.hist, s.used[t] - 1, t)
  {
    PredictsInTurn(cfg, s, t, j);
    hide *;
    if OrderedExamples(cfg, s.hist, s.used[t] - 1) { OrderedAfter(cfg, s.hist, s.used[t] - 1); }
  }

  // ------------------------------------------------------------ slots and counters

  /** The assertions of the source: `in_use` on fetch and on free, `threads_to_finish == 0` when an
      unlabelled example is freed, a non-null entry when the delay ring is read. */
  lemma AssertionsHold(cfg: Config, s: State, t: nat)
    requires Reachable(cfg, s) && t < cfg.T
    ensures Shape(cfg, s)
    ensures s.pc[t].Fetch? && s.parsed != s.used[t] ==> s.slots[s.used[t] % cfg.R].inUse
    ensures s.pc[t].Free? ==> s.slots[s.pc[t].slot].inUse
    ensures s.pc[t].Drop? ==> s.slots[s.pc[t].slot].inUse && s.slots[s.pc[t].slot].toFinish == 0
    ensures s.pc[t].Ret1? ==> s.ring[s.didx[t] % cfg.R] == Some((s.closed - 1) % cfg.R)
  {
    ReachableInv(cfg, s);
    Unpack(cfg, s, t);
    if s.pc[t].Ret1? { OwedIsQueued(cfg, s, t); }
    hide Reachable, Inv, InvOpen, InvOut, InvLocks, InvThreads, InvWeights, InvTraining, Barrier;
    if s.pc[t].Fetch? && s.parsed != s.used[t] {
      assert InUseAt(cfg, s, s.used[t]);
    } else if s.pc[t].Free? || s.pc[t].Drop? {
      assert InUseAt(cfg, s, s.closed - 1);
    }
  }

  lemma {:induction false} CountIsCardinality(m: seq<bool>)
    ensures Count(m) == |set i | 0 <= i < |m| && m[i]|
  {
    if m != [] {
      var n := |m| - 1;
      CountIsCardinality(m[..n]);
      var a, b := set i | 0 <= i < n && m[..n][i], set i | 0 <= i < |m| && m[i];
      assert b == a + (if m[n] then {n} else {});
    }
  }

  lemma OpenCount(cfg: Config, s: State, e: nat)
    requires Shape(cfg, s) && InvOpen(cfg, s) && s.closed <= e < |s.hist|
    ensures s.slots[e % cfg.R].toFinish == |set t | 0 <= t < cfg.T && Predicted(s, t) <= e|
  {
    hide Predicted, SumDone, Dots;
    assert OpenSlot(cfg, s, e);
    var m := PredMask(cfg, s, e);
    CountIsCardinality(m);
    assert (set i | 0 <= i < |m| && m[i]) == (set t | 0 <= t < cfg.T && Predicted(s, t) <= e);
  }

  /** The reference counts are the numbers of threads that still owe the step. */
  lemma CountsAreExact(cfg: Config, s: State)
    requires Reachable(cfg, s)
    ensures Shape(cfg, s) && s.closed <= |s.hist|
    ensures forall e :: s.closed <= e < |s.hist| ==>
              s.slots[e % cfg.R].toFinish == |set t | 0 <= t < cfg.T && Predicted(s, t) <= e|
    ensures s.phase.Training? ==>
              && s.slots[(s.closed - 1) % cfg.R].toFinish == |set t | 0 <= t < cfg.T && InFinish(s, t)|
              && s.toUse[(s.local - 1) % cfg.R] == |set t | 0 <= t < cfg.T && InUse(s, t)|
  {
    ReachableInv(cfg, s);
    Unpack(cfg, s, 0);
    hide Reachable, Inv, InvWindow, InvOut, InvOpen, InvLocks, InvThreads, InvThread, InvWeights, Predicted, InFinish,
      InUse;
    forall e | s.closed <= e < |s.hist|
      ensures s.slots[e % cfg.R].toFinish == |set t | 0 <= t < cfg.T && Predicted(s, t) <= e|
    {
      OpenCount(cfg, s, e);
    }
    if s.phase.Training? {
      var f, u := FinMask(cfg, s), UseMask(cfg, s);
      CountIsCardinality(f);
      CountIsCardinality(u);
      assert (set i | 0 <= i < |f| && f[i]) == (set t | 0 <= t < cfg.T && InFinish(s, t));
      assert (set i | 0 <= i < |u| && u[i]) == (set t | 0 <= t < cfg.T && InUse(s, t));
    }
  }

  /** Published examples that are not freed have a slot to themselves: at most `R` of them, each in
      slot e % R, in use, untouched; everything else in the ring is free but for the parser's slot. */
  lemma SlotsAreExclusive(cfg: Config, s: State)
    requires Reachable(cfg, s)
    ensures Shape(cfg, s) && |s.out| <= |s.hist| <= |s.out| + cfg.R
    ensures forall e :: |s.out| <= e < |s.hist| ==> s.slots[e % cfg.R].inUse && s.slots[e % cfg.R].ex == s.hist[e]
    ensures forall a, b :: |s.out| <= a < b < |s.hist| ==> a % cfg.R != b % cfg.R
    ensures forall e :: High(s) <= e < |s.out| + cfg.R ==> !s.slots[e % cfg.R].inUse
  {
    ReachableInv(cfg, s);
    forall e | |s.out| <= e < |s.out| + cfg.R
      ensures s.slots[e % cfg.R].inUse <==> e < High(s)
      ensures e < |s.hist| ==> s.slots[e % cfg.R].ex == s.hist[e]
    {
      assert InUseAt(cfg, s, e) <==> e < High(s);
      assert s.closed <= e < |s.hist| ==> OpenSlot(cfg, s, e);
    }
    forall a, b | |s.out| <= a < b < |s.hist| ensures a % cfg.R != b % cfg.R {
      ModApart(a, b, cfg.R);
    }
  }

  /** `delay_example` never waits on `delay_empty`: the whole delay ring is empty when it pushes. */
  lemma PushNeverWaits(cfg: Config, s: State, t: nat, j: nat)
    requires Reachable(cfg, s) && t < cfg.T && t < |s.pc| && s.pc[t] == Push(j)
    ensures Shape(cfg, s) && (forall i :: 0 <= i < cfg.R ==> s.ring[i].None?) && ThreadStep(cfg, s, t).Some?
  {
    ReachableInv(cfg, s);
    assert InvThread(cfg, s, t);
    PushKeeps(cfg, s, t, j);
  }

  /** The slot a thread is about to free holds the next example to output and its prediction. */
  lemma FreesTheNext(cfg: Config, s: State, t: nat, j: nat)
    requires Inv(cfg, s) && t < cfg.T && (s.pc[t] == Free(j) || s.pc[t] == Drop(j))
    ensures |s.out| < |s.hist| && j == |s.out| % cfg.R && j < cfg.R && s.slots[j].inUse
    ensures s.slots[j].final == Prediction(cfg, s.hist, |s.out|)
  {
    assert InvThread(cfg, s, t);
    assert InUseAt(cfg, s, s.closed - 1);
  }

  lemma OnlyFreeingOutputs(cfg: Config, s: State, t: nat)
    requires Shape(cfg, s) && t < cfg.T && ThreadStep(cfg, s, t).Some? && !s.pc[t].Free? && !s.pc[t].Drop?
    ensures ThreadStep(cfg, s, t).value.out == s.out
  {
  }

  /** A step outputs at most one example, namely the next one in order, and exactly when it frees it. */
  lemma FreedOnceInOrder(cfg: Config, s: State, ev: Event)
    requires Reachable(cfg, s) && Shape(cfg, s) && Step(cfg, s, ev).Some?
    ensures var s' := Step(cfg, s, ev).value;
      || s'.out == s.out
      || (|s.out| < |s.hist| && s'.out == s.out + [Prediction(cfg, s.hist, |s.out|)]
          && s.slots[|s.out| % cfg.R].inUse
          && s'.slots == s.slots[|s.out| % cfg.R := s.slots[|s.out| % cfg.R].(inUse := false)])
  {
    ReachableInv(cfg, s);
    if ev.ByThread? {
      var t := ev.t;
      if s.pc[t].Free? || s.pc[t].Drop? {
        FreesTheNext(cfg, s, t, s.pc[t].slot);
      } else {
        OnlyFreeingOutputs(cfg, s, t);
      }
    }
  }

  // ------------------------------------------------------------ shutdown

  /** `thread_done` is right: a thread that leaves its loop has predicted every parsed example and
      trained on every labelled one, and no more examples will come. */
  lemma ExitIsComplete(cfg: Config, s: State, t: nat)
    requires Reachable(cfg, s) && t < cfg.T && t < |s.pc| && s.pc[t].Exited?
    ensures Shape(cfg, s) && s.finished && s.used[t] == s.parsed == |s.hist| && !s.parser.Parse? && !s.parser.Publish?
    ensures s.weights[t] == Shard(cfg, s.hist, |s.hist|, t)
    ensures s.didx[t] == s.local
  {
    ReachableInv(cfg, s);
    Unpack(cfg, s, t);
    UntrainedBetween(cfg, s.hist, s.closed, |s.hist|);
  }

  lemma ExitedThread(cfg: Config, s: State, t: nat)
    requires Shape(cfg, s) && t < cfg.T && InvThread(cfg, s, t) && s.pc[t].Exited?
    ensures Predicted(s, t) == |s.hist| && !InFinish(s, t)
  {
  }

  lemma NoneOpen(cfg: Config, s: State)
    requires Shape(cfg, s) && s.closed <= |s.hist| && InvOpen(cfg, s)
    requires forall t :: 0 <= t < cfg.T ==> Predicted(s, t) == |s.hist|
    ensures s.closed == |s.hist|
  {
    hide Predicted, SumDone, Dots;
    if s.closed < |s.hist| {
      assert OpenSlot(cfg, s, s.closed);
      CountNone(PredMask(cfg, s, s.closed));
    }
  }

  lemma NoneTraining(cfg: Config, s: State)
    requires Shape(cfg, s) && s.closed <= |s.hist| && InvPhase(cfg, s)
    requires forall t :: 0 <= t < cfg.T ==> s.pc[t].Exited? && !InFinish(s, t)
    ensures s.phase.Open?
  {
    hide InFinish, ClosedSlot, RingEmpty, TrainCount;
    CountNone(FinMask(cfg, s));
  }

  lemma AllExited(cfg: Config, s: State)
    requires Inv(cfg, s) && forall t :: 0 <= t < cfg.T ==> s.pc[t].Exited?
    ensures s.closed == |s.hist| && s.phase.Open?
  {
    Unpack(cfg, s, 0);
    forall t | 0 <= t < cfg.T ensures InvThread(cfg, s, t) {}
    hide *;
    forall t | 0 <= t < cfg.T ensures Predicted(s, t) == |s.hist| && !InFinish(s, t) {
      ExitedThread(cfg, s, t);
    }
    NoneOpen(cfg, s);
    NoneTraining(cfg, s);
  }

  /** When all threads have left, everything is output, everything is trained on, every slot is free. */
  lemma ShutdownIsComplete(cfg: Config, s: State)
    requires Reachable(cfg, s) && Shape(cfg, s) && s.parser.Stopped?
    requires forall t :: 0 <= t < cfg.T ==> s.pc[t].Exited?
    ensures |s.out| == |s.hist| && forall j :: 0 <= j < cfg.R ==> !s.slots[j].inUse
    ensures s.weights == After(cfg, s.hist, |s.hist|)
    ensures forall e :: 0 <= e < |s.hist| ==> s.out[e] == Prediction(cfg, s.hist, e)
    ensures OrderedExamples(cfg, s.hist, |s.hist|) ==> Concatenated(s.weights) == SeqWeights(cfg, s.hist, |s.hist|)
  {
    ReachableInv(cfg, s);
    AllExited(cfg, s);
    TakesTurns(cfg, s);
    forall t | 0 <= t < cfg.T ensures s.weights[t] == After(cfg, s.hist, |s.hist|)[t] {
      assert s.weights[t] == Shard(cfg, s.hist, Trained(s, t), t);
    }
    if OrderedExamples(cfg, s.hist, |s.hist|) { QuiescentWeights(cfg, s); }
    forall j | 0 <= j < cfg.R ensures !s.slots[j].inUse {
      var e := SomeInWindow(s.closed, cfg.R, j);
      assert InUseAt(cfg, s, e) <==> e < High(s);
    }
  }

  /** Every slot number is hit by any `R` consecutive examples. */
  lemma SomeInWindow(lo: nat, R: nat, j: nat) returns (e: nat)
    requires j < R
    ensures lo <= e < lo + R && e % R == j
  {
    var q, r := lo / R, lo % R;
    assert lo == q * R + r;
    if j >= r {
      e := lo + (j - r);
      DivModUnique(e, R, q, j);
    } else {
      e := lo + R + j - r;
      assert e == (q + 1) * R + j;
      DivModUnique(e, R, q + 1, j);
    }
  }
}
