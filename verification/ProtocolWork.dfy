/** How much work a run can hold: polling, sleeping, waking and the parser in between never add to it. */
module ProtocolWork {
  import opened Basics
  import opened Modulus
  import opened Learner
  import opened Protocol
  import opened ProtocolInv
  import opened ProtocolSteps
  import opened ProtocolTheorems
  import opened ProtocolProgress

  /** How much one published example can add to a thread's rank. */
  function Share(cfg: Config): nat {
    cfg.T + 26
  }

  /** No thread's rank grows by more than `c`. */
  ghost predicate RanksWithin(cfg: Config, s: State, s': State, c: nat) {
    && |s.pc| == |s.used| == |s.didx| == |s'.pc| == |s'.used| == |s'.didx| == cfg.T
    && forall k :: 0 <= k < cfg.T ==> Rank(cfg, s', k) <= Rank(cfg, s, k) + c
  }

  lemma {:induction false} TotalWithin(cfg: Config, s: State, s': State, c: nat, n: nat)
    requires RanksWithin(cfg, s, s', c) && n <= cfg.T
    ensures TotalRank(cfg, s', n) <= TotalRank(cfg, s, n) + n * c
  {
    hide Rank;
    if n > 0 {
      TotalWithin(cfg, s, s', c, n - 1);
      assert n * c == (n - 1) * c + c;
    }
  }

  // ------------------------------------------------------------ polling

  predicate Polling(pc: Pc) {
    pc.Head? || pc.Fetch? || pc.Scan? || pc.Asleep? || pc.Exited?
  }

  /** A step of a thread that is not ready is a poll, and leads to the next poll. */
  lemma PollLeads(cfg: Config, s: State, t: nat)
    requires Shape(cfg, s) && t < cfg.T && InvThread(cfg, s, t) && s.parsed == |s.hist|
    requires ThreadStep(cfg, s, t).Some? && !Ready(cfg, s, t)
    ensures var s' := ThreadStep(cfg, s, t).value;
      && s' == s.(pc := s'.pc) && |s'.pc| == cfg.T && Polling(s'.pc[t])
      && s.used[t] == |s.hist| && (s.pc[t].Head? || s.didx[t] == s.local)
      && (forall k :: 0 <= k < cfg.T && k != t ==> s'.pc[k] == s.pc[k])
      && s.didx[t] == s.local
  {
  }

  lemma PollRanks(cfg: Config, s: State, t: nat)
    requires Shape(cfg, s) && t < cfg.T && InvThread(cfg, s, t) && s.parsed == |s.hist|
    requires ThreadStep(cfg, s, t).Some? && !Ready(cfg, s, t)
    ensures RanksWithin(cfg, s, ThreadStep(cfg, s, t).value, 0)
  {
    PollLeads(cfg, s, t);
    hide ThreadStep, InvThread, Ready;
  }

  /** A wake-up that nobody signalled does not add work either. */
  lemma SpuriousRanks(cfg: Config, s: State, t: nat)
    requires Shape(cfg, s) && t < cfg.T && s.pc[t].Asleep?
    ensures RanksWithin(cfg, s, Goto(s, t, Scan(0)), 0)
  {
  }

  // ------------------------------------------------------------ the parser

  lemma ParserRanks(cfg: Config, s: State, choice: Choice)
    requires Shape(cfg, s) && ParserStep(cfg, s, choice).Some? && !s.parser.Publish?
    ensures RanksWithin(cfg, s, ParserStep(cfg, s, choice).value, 0)
    ensures ParserStep(cfg, s, choice).value.hist == s.hist
  {
    assert ParserStep(cfg, s, choice).value.pc == s.pc && ParserStep(cfg, s, choice).value.used == s.used;
    assert ParserStep(cfg, s, choice).value.didx == s.didx && ParserStep(cfg, s, choice).value.local == s.local;
  }

  lemma PcRankMore(cfg: Config, pc: Pc, owes: bool)
    ensures PcRank(cfg, pc, owes, true) <= PcRank(cfg, pc, owes, false) + cfg.T + 6
  {
  }

  lemma PublishRanks(cfg: Config, s: State, choice: Choice)
    requires Shape(cfg, s) && s.parser.Publish? && forall k :: 0 <= k < cfg.T ==> s.used[k] <= |s.hist|
    ensures var r := ParserStep(cfg, s, choice);
      r.Some? && RanksWithin(cfg, s, r.value, Share(cfg)) && |r.value.hist| == |s.hist| + 1
  {
    var s' := ParserStep(cfg, s, choice).value;
    assert s'.pc == s.pc && s'.used == s.used && s'.didx == s.didx && s'.local == s.local;
    hide ParserStep, PcRank;
    forall k | 0 <= k < cfg.T ensures Rank(cfg, s', k) <= Rank(cfg, s, k) + Share(cfg) {
      PcRankMore(cfg, s.pc[k], s.didx[k] != s.local);
    }
  }

  // ------------------------------------------------------------ whole runs

  /** Whether an event is a step of a ready thread. */
  predicate IsWork(cfg: Config, s: State, ev: Event)
    requires Shape(cfg, s)
  {
    ev.ByThread? && ev.t < cfg.T && Ready(cfg, s, ev.t)
  }

  /** How many of a schedule's steps are work; all others are polls, wake-ups and the parser's. */
  ghost function Work(cfg: Config, s: State, evs: seq<Event>): nat
    decreases |evs|
  {
    if evs == [] || !Shape(cfg, s) then 0
    else match Step(cfg, s, evs[0])
      case None => 0
      case Some(s') => (if IsWork(cfg, s, evs[0]) then 1 else 0) + Work(cfg, s', evs[1..])
  }

  /** What one published example can add to all ranks together. */
  function PerExample(cfg: Config): nat {
    MulMonotone(0, cfg.T, Share(cfg));
    cfg.T * Share(cfg)
  }

  /** What all examples published from `s` to `r` can add. */
  ghost function Budget(cfg: Config, s: State, r: State): int {
    PerExample(cfg) * (|r.hist| - |s.hist|)
  }

  lemma WorkStep(cfg: Config, s: State, t: nat)
    requires Inv(cfg, s) && t < cfg.T && ThreadStep(cfg, s, t).Some?
    ensures var s' := ThreadStep(cfg, s, t).value;
      && s'.hist == s.hist && |s.pc| == |s.used| == |s.didx| == |s'.pc| == |s'.used| == |s'.didx| == cfg.T
      && TotalRank(cfg, s', cfg.T) + (if Ready(cfg, s, t) then 1 else 0) <= TotalRank(cfg, s, cfg.T)
  {
    var s' := ThreadStep(cfg, s, t).value;
    Unpack(cfg, s, t);
    assert |s.pc| == |s.used| == |s.didx| == cfg.T;
    hide *;
    if Ready(cfg, s, t) {
      StepTouches(cfg, s, t);
      ReadyStep(cfg, s, t);
    } else {
      PollLeads(cfg, s, t);
      PollRanks(cfg, s, t);
      TotalWithin(cfg, s, s', 0, cfg.T);
    }
  }

  lemma AnyStep(cfg: Config, s: State, ev: Event)
    requires Inv(cfg, s) && Step(cfg, s, ev).Some?
    ensures var s' := Step(cfg, s, ev).value;
      && |s.pc| == |s.used| == |s.didx| == |s'.pc| == |s'.used| == |s'.didx| == cfg.T
      && |s.hist| <= |s'.hist| <= |s.hist| + 1
      && TotalRank(cfg, s', cfg.T) + (if IsWork(cfg, s, ev) then 1 else 0)
         <= TotalRank(cfg, s, cfg.T) + if |s'.hist| == |s.hist| then 0 else PerExample(cfg)
  {
    match ev
    case ByThread(t) => WorkStep(cfg, s, t);
    case Spurious(t) =>
      SpuriousRanks(cfg, s, t);
      TotalWithin(cfg, s, Step(cfg, s, ev).value, 0, cfg.T);
    case ByParser(choice) =>
      Unpack(cfg, s, 0);
      var s' := ParserStep(cfg, s, choice).value;
      if s.parser.Publish? {
        forall k | 0 <= k < cfg.T ensures s.used[k] <= |s.hist| { assert InvThread(cfg, s, k); }
        hide *;
        PublishRanks(cfg, s, choice);
        TotalWithin(cfg, s, s', Share(cfg), cfg.T);
      } else {
        hide *;
        ParserRanks(cfg, s, choice);
        TotalWithin(cfg, s, s', 0, cfg.T);
      }
  }

  lemma BudgetSum(cfg: Config, s: State, s': State, r: State)
    requires |s.hist| <= |s'.hist| <= |s.hist| + 1
    ensures Budget(cfg, s, r) == Budget(cfg, s', r) + if |s'.hist| == |s.hist| then 0 else PerExample(cfg)
    ensures Budget(cfg, s, s) == 0
  {
    var p, a, b := PerExample(cfg), |r.hist| - |s'.hist|, |r.hist| - |s.hist|;
    assert p * b == p * a + p * (b - a);
  }

  /**
   * In every schedule, whatever is interleaved with whatever, the steps that are work are at most what the total rank
   * falls by and what the examples published on the way add to it.
   */
  lemma {:induction false} WorkIsPaidFor(cfg: Config, s: State, evs: seq<Event>)
    requires Inv(cfg, s) && Exec(cfg, s, evs).Some?
    ensures var r := Exec(cfg, s, evs).value;
      && Inv(cfg, r) && |s.pc| == |s.used| == |s.didx| == cfg.T && |r.pc| == |r.used| == |r.didx| == cfg.T
      && Work(cfg, s, evs) + TotalRank(cfg, r, cfg.T) <= TotalRank(cfg, s, cfg.T) + Budget(cfg, s, r)
    decreases |evs|
  {
    assert Shape(cfg, s) && |s.pc| == |s.used| == |s.didx| == cfg.T;
    hide Inv, Shape, TotalRank, Step, IsWork, Budget, PerExample;
    if evs == [] {
      BudgetSum(cfg, s, s, s);
    } else {
      var s' := Step(cfg, s, evs[0]).value;
      StepKeeps(cfg, s, evs[0]);
      AnyStep(cfg, s, evs[0]);
      WorkIsPaidFor(cfg, s', evs[1..]);
      BudgetSum(cfg, s, s', Exec(cfg, s, evs).value);
    }
  }

  /** While nothing is published, no schedule of learner steps, polls, wake-ups and parser steps holds more work than
      the total rank. */
  lemma WorkWithinRank(cfg: Config, s: State, evs: seq<Event>)
    requires Reachable(cfg, s) && Exec(cfg, s, evs).Some? && |Exec(cfg, s, evs).value.hist| == |s.hist|
    ensures Shape(cfg, s) && Work(cfg, s, evs) <= TotalRank(cfg, s, cfg.T)
  {
    ReachableInv(cfg, s);
    WorkIsPaidFor(cfg, s, evs);
    BudgetSum(cfg, s, s, s);
    assert Budget(cfg, s, Exec(cfg, s, evs).value) == Budget(cfg, s, s);
  }

  lemma {:induction false} InitRank(cfg: Config, n: nat)
    requires n <= cfg.T
    ensures TotalRank(cfg, Init(cfg), n) == 0
  {
    if n > 0 { InitRank(cfg, n - 1); }
  }

  /** Over a whole run the work is at most a fixed amount for every example published, however much the threads poll. */
  lemma WorkPerExample(cfg: Config, evs: seq<Event>)
    requires Exec(cfg, Init(cfg), evs).Some?
    ensures Work(cfg, Init(cfg), evs) <= PerExample(cfg) * |Exec(cfg, Init(cfg), evs).value.hist|
  {
    InitInv(cfg);
    WorkIsPaidFor(cfg, Init(cfg), evs);
    InitRank(cfg, cfg.T);
  }
}
