/** No reachable state is stuck: learner steps alone always finish every published example. */
module ProtocolProgress {
  import opened Learner
  import opened Counting
  import opened Protocol
  import opened ProtocolInv
  import opened ProtocolSteps
  import opened ProtocolTheorems

  /** How a thread's rank reads off its program counter, whether it owes a training step and whether there is `more`
      to fetch; without that, polling ranks nothing. */
  function PcRank(cfg: Config, pc: Pc, owes: bool, more: bool): nat {
    match pc
    case Pred(_) => 16
    case Push(_) => 15
    case Drop(_) => 15
    case Unlock(_) => 14
    case Wait(_) => 14
    case Head => if owes then 13 else if more then 2 else 0
    case Ret1 => 12
    case Ret2(_, _) => 11
    case Ret3(_, _) => 10
    case Ret4(_, _) => 9
    case Train(_) => 8
    case Fin(_) => 7
    case Free(_) => 6
    case Asleep(_) => if more then cfg.T + 6 else 0
    case Scan(i) => if !more then 0 else if i <= cfg.T + 1 then cfg.T + 5 - i else 3
    case Fetch => if more then 1 else 0
    case Exited => 0
  }

  /** How far thread `t` is from having finished every published example. */
  function Rank(cfg: Config, s: State, t: nat): nat
    requires t < |s.pc| && t < |s.used| && t < |s.didx|
  {
    (if s.used[t] < |s.hist| then 20 * (|s.hist| - s.used[t]) else 0)
    + PcRank(cfg, s.pc[t], s.didx[t] != s.local, s.used[t] < |s.hist|)
  }

  /** Thread `t` is not blocked and its next step is work, not polling. */
  predicate Ready(cfg: Config, s: State, t: nat)
    requires Shape(cfg, s) && t < cfg.T
  {
    match s.pc[t]
    case Head => s.didx[t] != s.local || s.used[t] < |s.hist|
    case Fetch => s.used[t] < |s.hist|
    case Asleep(_) => s.used[t] < |s.hist|
    case Scan(_) => s.used[t] < |s.hist|
    case Exited => false
    case Ret3(_, j) => s.slots[j].lock.None?
    case Fin(j) => s.slots[j].lock.None?
    case Pred(j) => s.slots[j].lock.None?
    case Wait(j) => s.slots[j].lock.None? && s.slots[j].done
    case _ => true
  }

  lemma ReadyIsEnabled(cfg: Config, s: State, t: nat)
    requires Inv(cfg, s) && t < cfg.T && Ready(cfg, s, t)
    ensures ThreadStep(cfg, s, t).Some?
  {
    Unpack(cfg, s, t);
    if s.pc[t].Ret1? { OwedIsQueued(cfg, s, t); }
    if s.pc[t].Push? { PushKeeps(cfg, s, t, s.pc[t].slot); }
    hide *;
    EnabledAt(cfg, s, t);
  }

  lemma EnabledAt(cfg: Config, s: State, t: nat)
    requires Shape(cfg, s) && t < cfg.T && Ready(cfg, s, t) && InvThread(cfg, s, t)
    requires s.pc[t].Ret1? ==> s.ring[(s.local - 1) % cfg.R].Some?
    requires s.pc[t].Push? ==> StepPush(cfg, s, t, s.pc[t].slot).Some?
    ensures ThreadStep(cfg, s, t).Some?
  {
  }

  /** What a thread step leaves alone. */
  lemma StepKeepsShared(cfg: Config, s: State, t: nat)
    requires Shape(cfg, s) && t < cfg.T && ThreadStep(cfg, s, t).Some?
    ensures ThreadStep(cfg, s, t).value.hist == s.hist && ThreadStep(cfg, s, t).value.parser == s.parser
  {
  }

  lemma StepKeepsLocal(cfg: Config, s: State, t: nat)
    requires Shape(cfg, s) && t < cfg.T && ThreadStep(cfg, s, t).Some? && !s.pc[t].Push?
    ensures ThreadStep(cfg, s, t).value.local == s.local
  {
  }

  lemma StepKeepsUsed(cfg: Config, s: State, t: nat)
    requires Shape(cfg, s) && t < cfg.T && ThreadStep(cfg, s, t).Some?
    ensures ThreadStep(cfg, s, t).value.used ==
            (if s.pc[t].Fetch? && s.parsed != s.used[t] then s.used[t := s.used[t] + 1] else s.used)
  {
  }

  lemma StepKeepsIndices(cfg: Config, s: State, t: nat)
    requires Shape(cfg, s) && t < cfg.T && ThreadStep(cfg, s, t).Some?
    ensures ThreadStep(cfg, s, t).value.didx == (if s.pc[t].Ret2? then s.didx[t := s.didx[t] + 1] else s.didx)
  {
  }

  ghost predicate MovesOne(cfg: Config, s: State, t: nat)
    requires Shape(cfg, s) && t < cfg.T && ThreadStep(cfg, s, t).Some?
  {
    var s' := ThreadStep(cfg, s, t).value;
    |s'.pc| == cfg.T && forall k :: 0 <= k < cfg.T && k != t ==> s'.pc[k] == s.pc[k]
  }

  predicate Locking(pc: Pc) {
    pc.Ret1? || pc.Ret3? || pc.Fin? || pc.Wait? || pc.Push? || pc.Asleep?
  }

  lemma LockingStepMovesOne(cfg: Config, s: State, t: nat)
    requires Shape(cfg, s) && t < cfg.T && ThreadStep(cfg, s, t).Some?
    requires Locking(s.pc[t])
    ensures MovesOne(cfg, s, t)
  {
  }

  lemma PredStepMovesOne(cfg: Config, s: State, t: nat)
    requires Shape(cfg, s) && t < cfg.T && ThreadStep(cfg, s, t).Some? && s.pc[t].Pred?
    ensures MovesOne(cfg, s, t)
  {
  }

  lemma PlainStepMovesOne(cfg: Config, s: State, t: nat)
    requires Shape(cfg, s) && t < cfg.T && ThreadStep(cfg, s, t).Some?
    requires !Locking(s.pc[t]) && !s.pc[t].Pred?
    ensures MovesOne(cfg, s, t)
  {
  }

  lemma StepMovesOne(cfg: Config, s: State, t: nat)
    requires Shape(cfg, s) && t < cfg.T && ThreadStep(cfg, s, t).Some?
    ensures MovesOne(cfg, s, t)
  {
    if s.pc[t].Pred? {
      PredStepMovesOne(cfg, s, t);
    } else if Locking(s.pc[t]) {
      LockingStepMovesOne(cfg, s, t);
    } else {
      PlainStepMovesOne(cfg, s, t);
    }
  }

  lemma StepTouches(cfg: Config, s: State, t: nat)
    requires Shape(cfg, s) && t < cfg.T && ThreadStep(cfg, s, t).Some?
    ensures var s' := ThreadStep(cfg, s, t).value;
      && |s'.pc| == |s'.used| == |s'.didx| == cfg.T && s'.hist == s.hist && s'.parser == s.parser
      && (forall k :: 0 <= k < cfg.T && k != t ==>
            s'.pc[k] == s.pc[k] && s'.used[k] == s.used[k] && s'.didx[k] == s.didx[k])
      && (!s.pc[t].Push? ==> s'.local == s.local)
      && (!s.pc[t].Fetch? ==> s'.used[t] == s.used[t])
      && (!s.pc[t].Ret2? ==> s'.didx[t] == s.didx[t])
  {
    StepKeepsShared(cfg, s, t);
    StepKeepsUsed(cfg, s, t);
    StepKeepsIndices(cfg, s, t);
    StepMovesOne(cfg, s, t);
    if !s.pc[t].Push? { StepKeepsLocal(cfg, s, t); }
    hide ThreadStep;
    var s' := ThreadStep(cfg, s, t).value;
    assert |s'.used| == cfg.T && |s'.didx| == cfg.T;
    forall k | 0 <= k < cfg.T && k != t
      ensures s'.pc[k] == s.pc[k] && s'.used[k] == s.used[k] && s'.didx[k] == s.didx[k] {}
  }

  /** Where a thread step can lead. */
  lemma StepLeads(cfg: Config, s: State, t: nat)
    requires Shape(cfg, s) && t < cfg.T && ThreadStep(cfg, s, t).Some? && t < |ThreadStep(cfg, s, t).value.pc|
    ensures var pc' := ThreadStep(cfg, s, t).value.pc[t];
      match s.pc[t]
      case Head => pc' == (if s.didx[t] != s.local then Ret1 else Fetch)
      case Ret1 => pc'.Ret2?
      case Ret2(_, _) => pc'.Ret3?
      case Ret3(_, _) => pc'.Ret4? || pc'.Train?
      case Ret4(_, _) => pc'.Train?
      case Train(_) => pc'.Fin?
      case Fin(_) => pc'.Head? || pc'.Free?
      case Fetch => s.parsed != s.used[t] ==> pc'.Pred?
      case Asleep(_) => pc' == Scan(0)
      case Scan(i) => pc'.Head? || pc'.Exited? || (pc' == Scan(i + 1) && i <= cfg.T)
      case Pred(_) => pc'.Push? || pc'.Drop? || pc'.Wait? || pc'.Head?
      case Drop(_) => pc'.Unlock?
      case _ => pc'.Head?
  {
  }

  lemma ReadyDescends(cfg: Config, s: State, t: nat)
    requires Shape(cfg, s) && t < cfg.T && InvThread(cfg, s, t) && s.parsed == |s.hist|
    requires Ready(cfg, s, t) && ThreadStep(cfg, s, t).Some?
    requires s.pc[t].Wait? ==> Owes(s, t)
    ensures var s' := ThreadStep(cfg, s, t).value;
      |s'.pc| == |s'.used| == |s'.didx| == cfg.T && s'.hist == s.hist && Rank(cfg, s', t) < Rank(cfg, s, t)
  {
    StepTouches(cfg, s, t);
    StepLeads(cfg, s, t);
    if s.pc[t].Fetch? { FetchDescends(cfg, s, t); }
  }

  lemma FetchDescends(cfg: Config, s: State, t: nat)
    requires Shape(cfg, s) && t < cfg.T && s.pc[t].Fetch? && s.parsed == |s.hist| && s.used[t] < |s.hist|
    ensures var s' := ThreadStep(cfg, s, t).value;
      t < |s'.pc| && t < |s'.used| && t < |s'.didx| && Rank(cfg, s', t) < Rank(cfg, s, t)
  {
  }

  lemma OthersRank(cfg: Config, s: State, t: nat, k: nat)
    requires Shape(cfg, s) && t < cfg.T && k < cfg.T && k != t && InvThread(cfg, s, t) && InvThread(cfg, s, k)
    requires ThreadStep(cfg, s, t).Some?
    ensures var s' := ThreadStep(cfg, s, t).value;
      |s'.pc| == |s'.used| == |s'.didx| == cfg.T && s'.hist == s.hist && Rank(cfg, s', k) == Rank(cfg, s, k)
  {
    StepTouches(cfg, s, t);
    if s.pc[t].Push? {
      assert s.pc[k].Wait?;
    }
  }

  /** While an example is unfinished, some thread is ready. */
  lemma SomeoneIsReady(cfg: Config, s: State) returns (t: nat)
    requires Inv(cfg, s) && |s.out| < |s.hist|
    ensures t < cfg.T && Ready(cfg, s, t)
  {
    if s.phase.Open? {
      t := ReadyWhenOpen(cfg, s);
    } else {
      t := ReadyWhenClosed(cfg, s);
    }
  }

  lemma ReadyWhenClosed(cfg: Config, s: State) returns (t: nat)
    requires Inv(cfg, s) && !s.phase.Open?
    ensures t < cfg.T && Ready(cfg, s, t)
  {
    match s.phase
    case Dropping(d) => t := d;
    case Pushing(d) => t := d;
    case Freeing(d) => t := d;
    case Training =>
      var j := (s.closed - 1) % cfg.R;
      if s.slots[j].lock.Some? {
        t := s.slots[j].lock.value;
        assert InvThread(cfg, s, t);
      } else {
        CountNone(FinMask(cfg, s));
        t :| 0 <= t < cfg.T && FinMask(cfg, s)[t];
        assert InFinish(s, t);
        assert InvThread(cfg, s, t);
      }
  }

  lemma ReadyWhenOpen(cfg: Config, s: State) returns (t: nat)
    requires Inv(cfg, s) && s.phase.Open? && |s.out| < |s.hist|
    ensures t < cfg.T && Ready(cfg, s, t)
  {
    assert OpenSlot(cfg, s, s.closed);
    CountNone(PredMask(cfg, s, s.closed));
    t :| 0 <= t < cfg.T && PredMask(cfg, s, s.closed)[t];
    assert InvThread(cfg, s, t);
    if s.pc[t].Pred? && s.slots[s.pc[t].slot].lock.Some? {
      t := s.slots[s.pc[t].slot].lock.value;
      assert InvThread(cfg, s, t);
    }
  }

  function TotalRank(cfg: Config, s: State, n: nat): nat
    requires n <= |s.pc| == |s.used| == |s.didx|
  {
    if n == 0 then 0 else TotalRank(cfg, s, n - 1) + Rank(cfg, s, n - 1)
  }

  lemma {:induction false} TotalDescends(cfg: Config, s: State, s': State, t: nat, n: nat)
    requires n <= |s.pc| == |s.used| == |s.didx| == |s'.pc| == |s'.used| == |s'.didx| && t < |s.pc|
    requires Rank(cfg, s', t) < Rank(cfg, s, t)
    requires forall k :: 0 <= k < |s.pc| && k != t ==> Rank(cfg, s', k) == Rank(cfg, s, k)
    ensures t < n ==> TotalRank(cfg, s', n) < TotalRank(cfg, s, n)
    ensures t >= n ==> TotalRank(cfg, s', n) == TotalRank(cfg, s, n)
  {
    if n > 0 { TotalDescends(cfg, s, s', t, n - 1); }
  }

  lemma RanksDescend(cfg: Config, s: State, t: nat)
    requires Shape(cfg, s) && InvThreads(cfg, s) && s.parsed == |s.hist| && t < cfg.T
    requires Ready(cfg, s, t) && ThreadStep(cfg, s, t).Some? && (s.pc[t].Wait? ==> Owes(s, t))
    ensures var s' := ThreadStep(cfg, s, t).value;
      |s'.pc| == |s'.used| == |s'.didx| == cfg.T && TotalRank(cfg, s', cfg.T) < TotalRank(cfg, s, cfg.T)
  {
    var s' := ThreadStep(cfg, s, t).value;
    assert InvThread(cfg, s, t);
    ReadyDescends(cfg, s, t);
    forall k | 0 <= k < cfg.T && k != t ensures Rank(cfg, s', k) == Rank(cfg, s, k) {
      assert InvThread(cfg, s, k);
      OthersRank(cfg, s, t, k);
    }
    TotalDescends(cfg, s, s', t, cfg.T);
  }

  /** Whichever ready thread moves, the total rank goes down. */
  lemma ReadyStep(cfg: Config, s: State, t: nat)
    requires Inv(cfg, s) && t < cfg.T && Ready(cfg, s, t)
    ensures ThreadStep(cfg, s, t).Some?
    ensures var s' := ThreadStep(cfg, s, t).value;
      Inv(cfg, s') && s'.hist == s.hist && s'.parser == s.parser && TotalRank(cfg, s', cfg.T) < TotalRank(cfg, s, cfg.T)
  {
    ReadyIsEnabled(cfg, s, t);
    if s.pc[t].Wait? { WaitIsOwed(cfg, s, t, s.pc[t].slot); }
    ThreadStepKeeps(cfg, s, t);
    Unpack(cfg, s, t);
    hide *;
    StepTouches(cfg, s, t);
    RanksDescend(cfg, s, t);
  }

  /** One useful step is always possible while an example is unfinished. */
  lemma Progress(cfg: Config, s: State) returns (t: nat)
    requires Inv(cfg, s) && |s.out| < |s.hist|
    ensures t < cfg.T && Ready(cfg, s, t) && ThreadStep(cfg, s, t).Some?
    ensures var s' := ThreadStep(cfg, s, t).value;
      Inv(cfg, s') && s'.hist == s.hist && s'.parser == s.parser && TotalRank(cfg, s', cfg.T) < TotalRank(cfg, s, cfg.T)
  {
    t := SomeoneIsReady(cfg, s);
    ReadyStep(cfg, s, t);
  }

  // ------------------------------------------------------------ every schedule of useful steps

  /** Learner steps only, each by a thread that is ready at that moment; which one is up to the scheduler. */
  ghost predicate Working(cfg: Config, s: State, evs: seq<Event>)
    decreases |evs|
  {
    evs != [] ==>
      && Shape(cfg, s) && evs[0].ByThread? && evs[0].t < cfg.T && Ready(cfg, s, evs[0].t)
      && Step(cfg, s, evs[0]).Some? && Working(cfg, Step(cfg, s, evs[0]).value, evs[1..])
  }

  /** Whatever the scheduler chooses, ready threads cannot go on working for more steps than the total rank. */
  lemma {:induction false} WorkIsBounded(cfg: Config, s: State, evs: seq<Event>)
    requires Inv(cfg, s) && Working(cfg, s, evs)
    ensures var r := Exec(cfg, s, evs);
      && r.Some? && Inv(cfg, r.value) && r.value.hist == s.hist && r.value.parser == s.parser
      && |evs| + TotalRank(cfg, r.value, cfg.T) <= TotalRank(cfg, s, cfg.T)
    decreases |evs|
  {
    hide Inv, TotalRank, Ready, ThreadStep;
    if evs != [] {
      var t := evs[0].t;
      ReadyStep(cfg, s, t);
      WorkIsBounded(cfg, ThreadStep(cfg, s, t).value, evs[1..]);
    }
  }

  /** When no thread is ready any more, everything published has been output and freed. */
  lemma NothingLeft(cfg: Config, s: State)
    requires Inv(cfg, s) && forall t :: 0 <= t < cfg.T ==> !Ready(cfg, s, t)
    ensures |s.out| == |s.hist|
  {
    if |s.out| != |s.hist| { var t := SomeoneIsReady(cfg, s); }
  }

  /** Every schedule that lets ready threads work until none is ready finishes what was published, in bounded time. */
  lemma AnyWorkFinishes(cfg: Config, s: State, evs: seq<Event>)
    requires Reachable(cfg, s) && Working(cfg, s, evs)
    requires Exec(cfg, s, evs).Some? && Shape(cfg, Exec(cfg, s, evs).value)
    requires forall t :: 0 <= t < cfg.T ==> !Ready(cfg, Exec(cfg, s, evs).value, t)
    ensures Shape(cfg, s) && |evs| <= TotalRank(cfg, s, cfg.T)
    ensures Exec(cfg, s, evs).value.hist == s.hist && |Exec(cfg, s, evs).value.out| == |s.hist|
  {
    ReachableInv(cfg, s);
    WorkIsBounded(cfg, s, evs);
    NothingLeft(cfg, Exec(cfg, s, evs).value);
  }

  /** From every state the learner can reach, learner steps alone lead to one where every published
      example has been output and freed: there is no deadlock, whoever holds which lock. */
  lemma {:induction false} Drain(cfg: Config, s: State) returns (evs: seq<Event>)
    requires Inv(cfg, s)
    ensures Working(cfg, s, evs)
    ensures var r := Exec(cfg, s, evs);
      r.Some? && Inv(cfg, r.value) && r.value.hist == s.hist && |r.value.out| == |s.hist| && r.value.parser == s.parser
    decreases TotalRank(cfg, s, cfg.T)
  {
    hide TotalRank, Ready, ThreadStep;
    if |s.out| == |s.hist| {
      evs := [];
    } else {
      var t := Progress(cfg, s);
      var rest := Drain(cfg, ThreadStep(cfg, s, t).value);
      evs := [ByThread(t)] + rest;
      assert evs[1..] == rest;
    }
  }

  lemma NoDeadlock(cfg: Config, s: State)
    requires Reachable(cfg, s)
    ensures exists evs: seq<Event> :: Working(cfg, s, evs)
              && Exec(cfg, s, evs).Some? && Exec(cfg, s, evs).value.hist == s.hist
              && |Exec(cfg, s, evs).value.out| == |s.hist|
  {
    ReachableInv(cfg, s);
    var evs := Drain(cfg, s);
  }

  /** A thread asleep on `example_available` with something to fetch, or with the end announced, has been woken. */
  lemma NoLostWakeUp(cfg: Config, s: State, t: nat)
    requires Reachable(cfg, s) && t < cfg.T && t < |s.pc| && s.pc[t].Asleep?
    ensures Shape(cfg, s)
    ensures s.used[t] < |s.hist| || (s.finished && !s.parser.Release?) ==> ThreadStep(cfg, s, t).Some?
  {
    ReachableInv(cfg, s);
    Unpack(cfg, s, t);
  }
}
