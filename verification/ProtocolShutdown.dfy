/** The whole system can always come to an orderly end: the parser stops and every learner thread leaves. */
module ProtocolShutdown {
  import opened Basics
  import opened Learner
  import opened Shards
  import opened Protocol
  import opened ProtocolInv
  import opened ProtocolSteps
  import opened ProtocolTheorems
  import opened ProtocolProgress

  // ------------------------------------------------------------ the parser

  /** How many steps the parser is from having stopped, if its input ends now. */
  function ParserRank(s: State): nat {
    match s.parser
    case Publish => 9
    case Release => if s.finished then 3 else 8
    case Top => if s.finished then 2 else 7
    case Get => 6
    case Parse => 5
    case EndPass => 4
    case Stopped => 0
  }

  /** Everything published is output, and the parser is not about to publish. */
  ghost predicate Drained(cfg: Config, s: State) {
    Inv(cfg, s) && |s.out| == |s.hist| && !s.parser.Publish?
  }

  /** A free slot is there for the parser once everything is output. */
  lemma SlotFree(cfg: Config, s: State)
    requires Shape(cfg, s) && InvWindow(cfg, s) && InvOut(cfg, s) && |s.out| == |s.hist| && s.parser.Get?
    ensures !s.slots[s.parsed % cfg.R].inUse
  {
    assert InUseAt(cfg, s, |s.hist|) <==> |s.hist| < High(s);
  }

  lemma ParserAdvances(cfg: Config, s: State)
    requires Shape(cfg, s) && InvWindow(cfg, s) && !s.parser.Publish? && !s.parser.Stopped?
    requires s.parser.Get? ==> !s.slots[s.parsed % cfg.R].inUse
    ensures var r := ParserStep(cfg, s, EndOfPass(true));
      && r.Some? && r.value.hist == s.hist && r.value.out == s.out && r.value.pc == s.pc
      && !r.value.parser.Publish? && ParserRank(r.value) < ParserRank(s)
  {
  }

  /** When the input ends, the parser stops. */
  lemma {:induction false} ParserStops(cfg: Config, s: State) returns (evs: seq<Event>)
    requires Drained(cfg, s)
    ensures var r := Exec(cfg, s, evs);
      r.Some? && Drained(cfg, r.value) && r.value.parser.Stopped? && r.value.hist == s.hist
    decreases ParserRank(s)
  {
    if s.parser.Stopped? {
      evs := [];
    } else {
      if s.parser.Get? { SlotFree(cfg, s); }
      ParserAdvances(cfg, s);
      ParserStepKeeps(cfg, s, EndOfPass(true));
      hide Inv, ParserStep, ParserRank;
      var rest := ParserStops(cfg, ParserStep(cfg, s, EndOfPass(true)).value);
      evs := [ByParser(EndOfPass(true))] + rest;
      assert evs[1..] == rest;
    }
  }

  // ------------------------------------------------------------ the learner threads

  /** The parser has stopped and everything is output. */
  ghost predicate Quiet(cfg: Config, s: State) {
    Inv(cfg, s) && |s.out| == |s.hist| && s.parser.Stopped?
  }

  function ExitRank(cfg: Config, pc: Pc): nat {
    match pc
    case Unlock(_) => cfg.T + 9
    case Head => cfg.T + 8
    case Asleep(_) => cfg.T + 7
    case Fetch => cfg.T + 7
    case Scan(i) => if i <= cfg.T + 1 then cfg.T + 6 - i else 1
    case _ => 0
  }

  /** A thread that has not left has nothing to do but to leave. */
  lemma QuietThread(cfg: Config, s: State, t: nat)
    requires Shape(cfg, s) && t < cfg.T && InvThread(cfg, s, t) && s.phase.Open? && s.closed == |s.hist|
    requires s.finished && s.parser.Stopped?
    ensures s.used[t] == |s.hist| && s.didx[t] == s.local
    ensures s.pc[t].Unlock? || s.pc[t].Head? || s.pc[t].Asleep? || s.pc[t].Fetch? || s.pc[t].Scan? || s.pc[t].Exited?
    ensures s.pc[t].Asleep? ==> s.pc[t].at < s.signals
  {
  }

  lemma QuietMove(cfg: Config, s: State, t: nat)
    requires Shape(cfg, s) && t < cfg.T && s.finished && s.parsed == |s.hist|
    requires (forall k :: 0 <= k < cfg.T ==> s.used[k] == |s.hist|) && s.didx[t] == s.local
    requires s.pc[t].Unlock? || s.pc[t].Head? || s.pc[t].Asleep? || s.pc[t].Fetch? || s.pc[t].Scan?
    requires s.pc[t].Asleep? ==> s.pc[t].at < s.signals
    ensures var r := ThreadStep(cfg, s, t);
      && r.Some? && r.value.hist == s.hist && r.value.out == s.out && r.value.parser == s.parser
      && |r.value.pc| == cfg.T && ExitRank(cfg, r.value.pc[t]) < ExitRank(cfg, s.pc[t])
      && forall k :: 0 <= k < cfg.T && k != t ==> r.value.pc[k] == s.pc[k]
  {
  }

  lemma QuietPhase(cfg: Config, s: State)
    requires Quiet(cfg, s)
    ensures s.phase.Open? && s.closed == |s.hist| && s.finished && s.parsed == |s.hist|
  {
  }

  lemma QuietStep(cfg: Config, s: State, t: nat)
    requires Quiet(cfg, s) && t < cfg.T && !s.pc[t].Exited?
    ensures var r := ThreadStep(cfg, s, t);
      && r.Some? && Quiet(cfg, r.value) && r.value.hist == s.hist
      && |r.value.pc| == cfg.T && ExitRank(cfg, r.value.pc[t]) < ExitRank(cfg, s.pc[t])
      && forall k :: 0 <= k < cfg.T && k != t ==> r.value.pc[k] == s.pc[k]
  {
    Unpack(cfg, s, t);
    QuietPhase(cfg, s);
    forall k | 0 <= k < cfg.T ensures InvThread(cfg, s, k) {}
    hide Shape, InvThread, InvThreads, ThreadStep, ExitRank, Inv, InvWindow, InvOpen, InvOut, InvPhase, InvWeights,
      InvLocks;
    forall k | 0 <= k < cfg.T ensures s.used[k] == |s.hist| { QuietThread(cfg, s, k); }
    QuietThread(cfg, s, t);
    QuietMove(cfg, s, t);
    ThreadStepKeeps(cfg, s, t);
  }

  lemma {:induction false} Leave(cfg: Config, s: State, t: nat) returns (evs: seq<Event>)
    requires Quiet(cfg, s) && t < cfg.T
    ensures var r := Exec(cfg, s, evs);
      && r.Some? && Quiet(cfg, r.value) && r.value.hist == s.hist && r.value.pc[t].Exited?
      && forall k :: 0 <= k < cfg.T && k != t ==> r.value.pc[k] == s.pc[k]
    decreases ExitRank(cfg, s.pc[t])
  {
    if s.pc[t].Exited? {
      evs := [];
    } else {
      QuietStep(cfg, s, t);
      var s' := ThreadStep(cfg, s, t).value;
      var rest := Leave(cfg, s', t);
      evs := [ByThread(t)] + rest;
      assert evs[1..] == rest;
    }
  }

  lemma {:induction false} LeaveAll(cfg: Config, s: State, n: nat) returns (evs: seq<Event>)
    requires Quiet(cfg, s) && n <= cfg.T
    ensures var r := Exec(cfg, s, evs);
      && r.Some? && Quiet(cfg, r.value) && r.value.hist == s.hist
      && forall k :: 0 <= k < n ==> r.value.pc[k].Exited?
  {
    if n == 0 {
      evs := [];
    } else {
      var a := LeaveAll(cfg, s, n - 1);
      var s' := Exec(cfg, s, a).value;
      var b := Leave(cfg, s', n - 1);
      ExecConcat(cfg, s, a, b);
      evs := a + b;
    }
  }

  // ------------------------------------------------------------ the end

  lemma Publishes(cfg: Config, s: State)
    requires Inv(cfg, s) && s.parser.Publish?
    ensures var r := Step(cfg, s, ByParser(EndOfPass(true)));
      r.Some? && Inv(cfg, r.value) && r.value.parser.Top? && s.hist <= r.value.hist && |r.value.hist| == |s.hist| + 1
  {
    ParserStepKeeps(cfg, s, EndOfPass(true));
  }

  lemma Reaches(cfg: Config, s: State, evs: seq<Event>)
    requires Reachable(cfg, s) && Exec(cfg, s, evs).Some?
    ensures Reachable(cfg, Exec(cfg, s, evs).value)
  {
    var before :| Exec(cfg, Init(cfg), before) == Some(s);
    ExecConcat(cfg, Init(cfg), before, evs);
  }

  /** Everything published is output, the one example the parser may still hold included. */
  lemma DrainAll(cfg: Config, s: State) returns (evs: seq<Event>)
    requires Inv(cfg, s)
    ensures var r := Exec(cfg, s, evs);
      r.Some? && Drained(cfg, r.value) && s.hist <= r.value.hist && |r.value.hist| <= |s.hist| + 1
  {
    evs := Drain(cfg, s);
    if s.parser.Publish? {
      var s1 := Exec(cfg, s, evs).value;
      Publishes(cfg, s1);
      var s2 := Step(cfg, s1, ByParser(EndOfPass(true))).value;
      var more := Drain(cfg, s2);
      var tail := [ByParser(EndOfPass(true))] + more;
      assert tail[1..] == more;
      assert Exec(cfg, s1, tail) == Exec(cfg, s2, more);
      ExecConcat(cfg, s, evs, tail);
      evs := evs + tail;
    }
  }

  /**
   * From every reachable state, if the input ends, the run can be brought to its end: the parser has stopped, all
   * threads have left, everything published is output, all slots are free and all weights are the final ones.
   */
  lemma CanFinish(cfg: Config, s: State) returns (evs: seq<Event>, r: State)
    requires Reachable(cfg, s)
    ensures Exec(cfg, s, evs) == Some(r) && Shape(cfg, r)
    ensures r.parser.Stopped? && forall t :: 0 <= t < cfg.T ==> r.pc[t].Exited?
    ensures s.hist <= r.hist && |r.hist| <= |s.hist| + 1 && |r.out| == |r.hist|
    ensures forall j :: 0 <= j < cfg.R ==> !r.slots[j].inUse
    ensures r.weights == After(cfg, r.hist, |r.hist|)
  {
    ReachableInv(cfg, s);
    var a := DrainAll(cfg, s);
    var s1 := Exec(cfg, s, a).value;
    var b := ParserStops(cfg, s1);
    var s2 := Exec(cfg, s1, b).value;
    var c := LeaveAll(cfg, s2, cfg.T);
    r := Exec(cfg, s2, c).value;
    ExecConcat(cfg, s, a, b);
    ExecConcat(cfg, s, a + b, c);
    evs := a + b + c;
    Reaches(cfg, s, evs);
    ShutdownIsComplete(cfg, r);
  }
}
