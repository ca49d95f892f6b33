/** The inductive invariant of the learner protocol. */
module ProtocolInv {
  import opened Basics
  import opened Learner
  import opened Shards
  import opened Counting
  import opened Protocol

  /** How many examples thread `t` has added its partial prediction to. */
  function Predicted(s: State, t: nat): int
    requires t < |s.pc| && t < |s.used|
  {
    var u: int := s.used[t];
    if s.pc[t].Pred? then u - 1 else u
  }

  /** Examples below `Low` are finished and freed. */
  function Low(s: State): int {
    if s.phase.Open? then s.closed else s.closed - 1
  }

  predicate Holding(s: State) {
    s.parser.Parse? || s.parser.Publish? || s.parser.EndPass? || s.parser.Release?
  }

  /** Ring positions `[Low, High)` are in use. */
  function High(s: State): int {
    |s.hist| + (if Holding(s) then 1 else 0)
  }

  /** Thread `t` still has to take the latest closed example from the delay ring. */
  predicate Owes(s: State, t: nat)
    requires t < |s.used| && t < |s.didx|
  {
    s.phase.Training? && s.used[t] == s.closed && s.didx[t] + 1 == s.local
  }

  predicate InUse(s: State, t: nat)
    requires t < |s.used| && t < |s.didx| && t < |s.pc|
  {
    && s.phase.Training? && s.used[t] == s.closed
    && (s.pc[t].Wait? || (s.pc[t].Head? && s.didx[t] + 1 == s.local)
        || s.pc[t].Ret1? || s.pc[t].Ret2? || s.pc[t].Ret3?)
  }

  predicate InTrain(s: State, t: nat)
    requires t < |s.used| && t < |s.didx| && t < |s.pc|
  {
    InUse(s, t) || (s.phase.Training? && s.used[t] == s.closed && (s.pc[t].Ret4? || s.pc[t].Train?))
  }

  predicate InFinish(s: State, t: nat)
    requires t < |s.used| && t < |s.didx| && t < |s.pc|
  {
    InTrain(s, t) || (s.phase.Training? && s.used[t] == s.closed && s.pc[t].Fin?)
  }

  /** Thread `t` has not yet trained on the latest closed example. */
  predicate Behind(s: State, t: nat)
    requires t < |s.used| && t < |s.didx| && t < |s.pc|
  {
    s.phase.Pushing? || InTrain(s, t)
  }

  function PredMask(cfg: Config, s: State, e: nat): (m: seq<bool>)
    requires Shape(cfg, s)
    ensures |m| == cfg.T && forall t :: 0 <= t < cfg.T ==> m[t] == (Predicted(s, t) <= e)
  {
    seq(cfg.T, t requires 0 <= t < cfg.T => Predicted(s, t) <= e)
  }

  function UseMask(cfg: Config, s: State): (m: seq<bool>)
    requires Shape(cfg, s)
    ensures |m| == cfg.T && forall t :: 0 <= t < cfg.T ==> m[t] == InUse(s, t)
  {
    seq(cfg.T, t requires 0 <= t < cfg.T => InUse(s, t))
  }

  function FinMask(cfg: Config, s: State): (m: seq<bool>)
    requires Shape(cfg, s)
    ensures |m| == cfg.T && forall t :: 0 <= t < cfg.T ==> m[t] == InFinish(s, t)
  {
    seq(cfg.T, t requires 0 <= t < cfg.T => InFinish(s, t))
  }

  // ------------------------------------------------------------ clauses

  /** Which ring slots are in use, and what has been output. */
  ghost predicate InvWindow(cfg: Config, s: State)
    requires Shape(cfg, s)
  {
    && s.parsed == |s.hist|
    && 0 <= Low(s) && s.closed <= |s.hist|
    && High(s) <= Low(s) + cfg.R
    && (forall e {:trigger InUseAt(cfg, s, e)} :: Low(s) <= e < Low(s) + cfg.R ==>
          (InUseAt(cfg, s, e) <==> e < High(s)))
    && (s.finished ==> s.parser.Release? || s.parser.Top? || s.parser.Stopped?)
    && (s.parser.Stopped? ==> s.finished)
  }

  predicate InUseAt(cfg: Config, s: State, e: int)
    requires Shape(cfg, s)
  {
    s.slots[e % cfg.R].inUse
  }

  /** Everything output so far is what the threads predict together, in order, once. */
  ghost predicate InvOut(cfg: Config, s: State) {
    && |s.out| == Low(s) <= |s.hist|
    && forall e :: 0 <= e < |s.out| ==> s.out[e] == Prediction(cfg, s.hist, e)
  }

  /** A published example that some thread has not predicted yet. */
  ghost predicate OpenSlot(cfg: Config, s: State, e: nat)
    requires Shape(cfg, s) && e < |s.hist|
  {
    var sl := s.slots[e % cfg.R];
    && sl.ex == s.hist[e] && !sl.done
    && sl.toFinish == Count(PredMask(cfg, s, e)) > 0
    && sl.partial == SumDone(PredMask(cfg, s, e), Dots(cfg, s.hist, e))
  }

  /** A filled slot is ready for its first prediction. */
  ghost predicate Prepared(cfg: Config, s: State)
    requires Shape(cfg, s)
  {
    s.parser.Publish? ==>
      var sl := s.slots[|s.hist| % cfg.R];
      !sl.done && sl.toFinish == cfg.T && sl.partial == 0.0
  }

  ghost predicate InvOpen(cfg: Config, s: State)
    requires Shape(cfg, s)
  {
    && (forall e :: s.closed <= e < |s.hist| ==> OpenSlot(cfg, s, e))
    && Prepared(cfg, s)
  }

  predicate Holds(pc: Pc, j: nat) {
    match pc
    case Ret4(_, k) => k == j
    case Push(k) => k == j
    case Drop(k) => k == j
    case Unlock(k) => k == j
    case _ => false
  }

  /** `ex->lock` is held exactly by the thread whose program counter says so. */
  ghost predicate InvLocks(cfg: Config, s: State)
    requires Shape(cfg, s)
  {
    && (forall t, j :: 0 <= t < cfg.T && 0 <= j < cfg.R && Holds(s.pc[t], j) ==> s.slots[j].lock == Some(t))
    && (forall j :: 0 <= j < cfg.R && s.slots[j].lock.Some? ==>
          s.slots[j].lock.value < cfg.T && Holds(s.pc[s.slots[j].lock.value], j))
  }

  /** A thread passes a labelled example only after all threads have predicted it. */
  ghost predicate Barrier(cfg: Config, s: State, t: nat)
    requires t < |s.pc| && t < |s.used|
  {
    forall e :: s.closed <= e < Predicted(s, t) && e < |s.hist| && Trains(cfg, s.hist[e]) ==>
      s.pc[t].Wait? && e == s.used[t] - 1
  }

  /** A thread that slept through no broadcast has nothing to fetch, and has not missed the end either. */
  predicate SignalOwed(s: State, t: nat)
    requires t < |s.used|
  {
    s.used[t] == |s.hist| && (s.finished ==> s.parser.Release?)
  }

  /** What thread `t`'s program counter says about its counters. */
  ghost predicate AtPc(cfg: Config, s: State, t: nat)
    requires Shape(cfg, s) && t < cfg.T
  {
    var u, c := s.used[t], s.closed;
    var clear := s.didx[t] == s.local;
    var latest := (c - 1) % cfg.R;
    var entry := (s.local - 1) % cfg.R;
    match s.pc[t]
    case Head => !s.phase.Pushing? && (clear || Owes(s, t))
    case Ret1 => Owes(s, t)
    case Ret2(i, j) => Owes(s, t) && i == entry && j == latest
    case Ret3(i, j) => s.phase.Training? && u == c && clear && i == entry && j == latest
    case Ret4(i, j) => s.phase.Training? && u == c && clear && i == entry && j == latest
    case Train(j) => s.phase.Training? && u == c && clear && j == latest
    case Fin(j) => s.phase.Training? && u == c && clear && j == latest
    case Free(j) => s.phase == Freeing(t) && u == c && clear && j == latest
    case Fetch => !s.phase.Pushing? && clear
    case Asleep(at) => !s.phase.Pushing? && clear && at <= s.signals && (at == s.signals ==> SignalOwed(s, t))
    case Scan(i) => !s.phase.Pushing? && clear
                    && (i > 0 ==> s.finished && forall k :: 0 <= k < i - 1 && k < cfg.T ==> s.used[k] == |s.hist|)
    case Pred(j) => !s.phase.Pushing? && clear && u > c && j == (u - 1) % cfg.R
    case Wait(j) => u > 0 && u <= |s.hist| && Trains(cfg, s.hist[u - 1]) && j == (u - 1) % cfg.R
                    && (if u == c then (s.phase.Pushing? && clear) || Owes(s, t) else clear && !s.phase.Pushing?)
    case Push(j) => s.phase == Pushing(t) && u == c && clear && j == latest
    case Drop(j) => s.phase == Dropping(t) && u == c && clear && j == latest
    case Unlock(j) => s.phase.Open? && u == c && c > 0 && clear && j == latest
    case Exited => !s.phase.Pushing? && clear && s.finished && forall k :: 0 <= k < cfg.T ==> s.used[k] == |s.hist|
  }

  ghost predicate InvThread(cfg: Config, s: State, t: nat)
    requires Shape(cfg, s) && t < cfg.T
  {
    && s.closed <= Predicted(s, t) && s.used[t] <= |s.hist|
    && AtPc(cfg, s, t)
    && Barrier(cfg, s, t)
  }

  ghost predicate InvThreads(cfg: Config, s: State)
    requires Shape(cfg, s)
  {
    forall t :: 0 <= t < cfg.T ==> InvThread(cfg, s, t)
  }

  /** The latest closed example: its slot holds the prediction and the rate. */
  ghost predicate ClosedSlot(cfg: Config, s: State)
    requires Shape(cfg, s)
  {
    && 0 < s.closed <= |s.hist|
    && var e, sl := s.closed - 1, s.slots[(s.closed - 1) % cfg.R];
    && sl.ex == s.hist[e] && sl.done
    && sl.final == Prediction(cfg, s.hist, e)
    && (Trains(cfg, s.hist[e]) ==> sl.eta == Rate(cfg, s.hist[e], sl.final))
  }

  ghost predicate RingEmpty(cfg: Config, s: State)
    requires Shape(cfg, s)
  {
    forall i :: 0 <= i < cfg.R ==> s.ring[i].None?
  }

  /** The delay ring, its counters, and where the latest closed example stands. */
  ghost predicate InvPhase(cfg: Config, s: State)
    requires Shape(cfg, s) && s.closed <= |s.hist|
  {
    && s.local + (if s.phase.Pushing? then 1 else 0) == TrainCount(cfg, s.hist, s.closed)
    && (!s.phase.Open? ==> ClosedSlot(cfg, s))
    && match s.phase
       case Open => RingEmpty(cfg, s)
       case Dropping(t) =>
         RingEmpty(cfg, s) && t < cfg.T && s.pc[t] == Drop((s.closed - 1) % cfg.R)
         && !Trains(cfg, s.hist[s.closed - 1]) && s.slots[(s.closed - 1) % cfg.R].toFinish == 0
       case Pushing(t) =>
         RingEmpty(cfg, s) && t < cfg.T && s.pc[t] == Push((s.closed - 1) % cfg.R)
         && Trains(cfg, s.hist[s.closed - 1])
       case Training =>
         && Trains(cfg, s.hist[s.closed - 1]) && s.local > 0
         && InvTraining(cfg, s)
       case Freeing(t) =>
         RingEmpty(cfg, s) && t < cfg.T && s.pc[t] == Free((s.closed - 1) % cfg.R)
         && Trains(cfg, s.hist[s.closed - 1])
  }

  ghost predicate InvTraining(cfg: Config, s: State)
    requires Shape(cfg, s) && s.closed > 0 && s.local > 0
  {
    var j, i := (s.closed - 1) % cfg.R, (s.local - 1) % cfg.R;
    && s.slots[j].toFinish == Count(FinMask(cfg, s)) > 0
    && s.toUse[i] == Count(UseMask(cfg, s))
    && (forall k :: 0 <= k < cfg.R && k != i ==> s.ring[k].None?)
    && (s.slots[j].lock.Some? ==> Count(UseMask(cfg, s)) == 0)
    && s.ring[i] == (if Count(UseMask(cfg, s)) > 0 || s.slots[j].lock.Some? then Some(j) else None)
  }

  /** Each slice is the one after the examples this thread has trained on. */
  ghost predicate InvWeights(cfg: Config, s: State)
    requires Shape(cfg, s) && s.closed <= |s.hist|
  {
    forall t :: 0 <= t < cfg.T ==>
      s.weights[t] == Shard(cfg, s.hist, Trained(s, t), t)
  }

  function Trained(s: State, t: nat): nat
    requires t < |s.used| && t < |s.didx| && t < |s.pc|
  {
    if Behind(s, t) && s.closed > 0 then s.closed - 1 else s.closed
  }

  ghost predicate Inv(cfg: Config, s: State) {
    && Shape(cfg, s)
    && InvWindow(cfg, s) && InvOut(cfg, s)
    && InvOpen(cfg, s) && InvLocks(cfg, s) && InvThreads(cfg, s)
    && InvPhase(cfg, s) && InvWeights(cfg, s)
  }

  lemma InitInv(cfg: Config)
    ensures Inv(cfg, Init(cfg))
  {
  }
}
