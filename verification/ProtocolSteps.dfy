/** Every step of the protocol keeps the invariant. */
module ProtocolSteps {
  import opened Modulus
  import opened Basics
  import opened Partition
  import opened Learner
  import opened Shards
  import opened Counting
  import opened Protocol
  import opened ProtocolInv

  /** The clauses of the invariant, together with what it says of thread `t`. */
  lemma Unpack(cfg: Config, s: State, t: nat)
    requires Inv(cfg, s) && t < cfg.T
    ensures InvWindow(cfg, s) && InvOut(cfg, s) && InvOpen(cfg, s) && InvLocks(cfg, s) && InvThreads(cfg, s)
    ensures s.closed <= |s.hist| && InvPhase(cfg, s) && InvWeights(cfg, s) && InvThread(cfg, s, t)
    ensures s.parsed == |s.hist| && 0 <= Low(s)
  {
  }

  lemma Collect(cfg: Config, s: State)
    requires Shape(cfg, s) && InvWindow(cfg, s) && InvOut(cfg, s) && InvOpen(cfg, s) && InvLocks(cfg, s)
    requires InvThreads(cfg, s) && s.closed <= |s.hist| && InvPhase(cfg, s) && InvWeights(cfg, s)
    ensures Inv(cfg, s)
  {
  }

  /** Only thread `t`'s program counter and its own counters changed. */
  ghost predicate OnlyOwn(cfg: Config, s: State, s': State, t: nat)
    requires Shape(cfg, s) && Shape(cfg, s') && t < cfg.T
  {
    && s' == s.(pc := s'.pc, used := s'.used, didx := s'.didx)
    && (forall k :: 0 <= k < cfg.T && k != t ==>
          s'.pc[k] == s.pc[k] && s'.used[k] == s.used[k] && s'.didx[k] == s.didx[k])
  }

  /** The shared facts another thread's invariant depends on. */
  ghost predicate SameShared(cfg: Config, s: State, s': State)
    requires Shape(cfg, s) && Shape(cfg, s')
  {
    && s'.closed == s.closed && s'.local == s.local && s'.phase == s.phase
    && s'.hist == s.hist && s'.finished == s.finished && s'.parser == s.parser && s'.signals >= s.signals
    && (forall k :: 0 <= k < cfg.T && s.used[k] == |s.hist| ==> s'.used[k] == |s.hist|)
  }

  lemma OtherThread(cfg: Config, s: State, s': State, k: nat)
    requires Shape(cfg, s) && Shape(cfg, s') && k < cfg.T && SameShared(cfg, s, s')
    requires s'.pc[k] == s.pc[k] && s'.used[k] == s.used[k] && s'.didx[k] == s.didx[k]
    requires InvThread(cfg, s, k)
    ensures InvThread(cfg, s', k)
    ensures Predicted(s', k) == Predicted(s, k)
    ensures InUse(s', k) == InUse(s, k) && InTrain(s', k) == InTrain(s, k) && InFinish(s', k) == InFinish(s, k)
    ensures Trained(s', k) == Trained(s, k)
  {
  }

  /** Thread `t` moved without changing where it stands with the open and the latest closed example. */
  ghost predicate SameStanding(cfg: Config, s: State, s': State, t: nat)
    requires Shape(cfg, s) && Shape(cfg, s') && t < cfg.T
  {
    && Predicted(s', t) == Predicted(s, t)
    && InUse(s', t) == InUse(s, t) && InTrain(s', t) == InTrain(s, t) && InFinish(s', t) == InFinish(s, t)
  }

  lemma AllStanding(cfg: Config, s: State, s': State, t: nat)
    requires Shape(cfg, s) && Shape(cfg, s') && t < cfg.T && OnlyOwn(cfg, s, s', t)
    requires s'.used[t] == s.used[t] || s.used[t] != |s.hist|
    requires InvThreads(cfg, s) && InvThread(cfg, s', t) && SameStanding(cfg, s, s', t)
    ensures InvThreads(cfg, s')
    ensures forall k :: 0 <= k < cfg.T ==> SameStanding(cfg, s, s', k) && Trained(s', k) == Trained(s, k)
  {
    forall k | 0 <= k < cfg.T
      ensures InvThread(cfg, s', k) && SameStanding(cfg, s, s', k) && Trained(s', k) == Trained(s, k)
    {
      if k != t {
        assert InvThread(cfg, s, k);
        OtherThread(cfg, s, s', k);
      }
    }
  }

  lemma SameMasks(cfg: Config, s: State, s': State)
    requires Shape(cfg, s) && Shape(cfg, s')
    requires forall k :: 0 <= k < cfg.T ==> SameStanding(cfg, s, s', k)
    ensures UseMask(cfg, s') == UseMask(cfg, s) && FinMask(cfg, s') == FinMask(cfg, s)
    ensures forall e :: PredMask(cfg, s', e) == PredMask(cfg, s, e)
  {
    forall k | 0 <= k < cfg.T
      ensures UseMask(cfg, s')[k] == UseMask(cfg, s)[k] && FinMask(cfg, s')[k] == FinMask(cfg, s)[k]
      ensures Predicted(s', k) == Predicted(s, k)
    {
      assert SameStanding(cfg, s, s', k);
    }
    forall e ensures PredMask(cfg, s', e) == PredMask(cfg, s, e) {}
  }

  /** The masks agree, so the delay ring's counters still mean the same. */
  lemma SamePhase(cfg: Config, s: State, s': State, t: nat)
    requires Shape(cfg, s) && s.closed <= |s.hist| && InvPhase(cfg, s)
    requires Shape(cfg, s') && t < cfg.T && OnlyOwn(cfg, s, s', t)
    requires !s.pc[t].Push? && !s.pc[t].Drop? && !s.pc[t].Free?
    requires UseMask(cfg, s') == UseMask(cfg, s) && FinMask(cfg, s') == FinMask(cfg, s)
    ensures InvPhase(cfg, s')
  {
    assert RingEmpty(cfg, s') == RingEmpty(cfg, s);
    if s.phase.Training? {
      assert InvTraining(cfg, s');
    }
  }

  /** A step that only moves thread `t` and leaves it in the same standing. */
  ghost predicate Moves(cfg: Config, s: State, s': State, t: nat)
    requires Shape(cfg, s) && t < cfg.T
  {
    && Shape(cfg, s') && OnlyOwn(cfg, s, s', t) && SameStanding(cfg, s, s', t)
    && (s'.used[t] == s.used[t] || s.used[t] != |s.hist|)
    && (forall j :: 0 <= j < cfg.R ==> Holds(s'.pc[t], j) == Holds(s.pc[t], j))
    && !s.pc[t].Push? && !s.pc[t].Drop? && !s.pc[t].Free?
    && InvThread(cfg, s', t)
  }

  lemma LocalLocks(cfg: Config, s: State, s': State, t: nat)
    requires Shape(cfg, s) && InvLocks(cfg, s) && t < cfg.T && Moves(cfg, s, s', t)
    ensures InvLocks(cfg, s')
  {
    hide InvThread;
  }

  lemma LocalStep(cfg: Config, s: State, s': State, t: nat)
    requires Inv(cfg, s) && t < cfg.T && Moves(cfg, s, s', t)
    ensures Inv(cfg, s')
  {
    hide InvThread, SameStanding;
    AllStanding(cfg, s, s', t);
    SameMasks(cfg, s, s');
    SamePhase(cfg, s, s', t);
    LocalLocks(cfg, s, s', t);
    SameOpen(cfg, s, s');
    hide InvPhase, InvOpen, InvLocks, InvThreads;
    assert InvWindow(cfg, s') by { assert forall e :: InUseAt(cfg, s', e) == InUseAt(cfg, s, e); }
  }

  /** Open examples are untouched when neither the slots nor the predicted counts change. */
  lemma SameOpen(cfg: Config, s: State, s': State)
    requires Inv(cfg, s) && Shape(cfg, s') && s'.slots == s.slots && s'.hist == s.hist && s'.closed == s.closed
    requires s'.parser == s.parser
    requires forall k :: 0 <= k < cfg.T ==> SameStanding(cfg, s, s', k)
    ensures InvOpen(cfg, s')
  {
    SameMasks(cfg, s, s');
    forall e | s.closed <= e < |s.hist| ensures OpenSlot(cfg, s', e) {
      assert OpenSlot(cfg, s, e);
    }
  }

  lemma HeadMoves(cfg: Config, s: State, t: nat)
    requires Shape(cfg, s) && t < cfg.T && s.pc[t].Head? && InvThread(cfg, s, t)
    ensures Moves(cfg, s, StepHead(cfg, s, t), t)
  {
  }

  lemma HeadKeeps(cfg: Config, s: State, t: nat)
    requires Inv(cfg, s) && t < cfg.T && s.pc[t].Head?
    ensures Inv(cfg, StepHead(cfg, s, t))
  {
    assert InvThread(cfg, s, t);
    hide *;
    HeadMoves(cfg, s, t);
    LocalStep(cfg, s, StepHead(cfg, s, t), t);
  }

  /** A thread that still owes a training step finds the latest closed example in the delay ring. */
  lemma OwedIsQueued(cfg: Config, s: State, t: nat)
    requires Inv(cfg, s) && t < cfg.T && InUse(s, t)
    ensures s.ring[(s.local - 1) % cfg.R] == Some((s.closed - 1) % cfg.R)
    ensures s.toUse[(s.local - 1) % cfg.R] > 0
  {
    assert UseMask(cfg, s)[t];
    CountNone(UseMask(cfg, s));
  }

  lemma Ret1Moves(cfg: Config, s: State, t: nat)
    requires Shape(cfg, s) && t < cfg.T && s.pc[t].Ret1? && InvThread(cfg, s, t)
    requires s.ring[(s.local - 1) % cfg.R] == Some((s.closed - 1) % cfg.R)
    ensures StepRet1(cfg, s, t).Some? && Moves(cfg, s, StepRet1(cfg, s, t).value, t)
  {
  }

  lemma Ret1Keeps(cfg: Config, s: State, t: nat)
    requires Inv(cfg, s) && t < cfg.T && s.pc[t].Ret1?
    ensures StepRet1(cfg, s, t).Some? && Inv(cfg, StepRet1(cfg, s, t).value)
  {
    assert InvThread(cfg, s, t);
    OwedIsQueued(cfg, s, t);
    hide *;
    Ret1Moves(cfg, s, t);
    LocalStep(cfg, s, StepRet1(cfg, s, t).value, t);
  }

  lemma Ret2Moves(cfg: Config, s: State, t: nat, i: nat, j: nat)
    requires Shape(cfg, s) && t < cfg.T && s.pc[t] == Ret2(i, j) && InvThread(cfg, s, t)
    ensures Moves(cfg, s, StepRet2(cfg, s, t, i, j), t)
  {
  }

  lemma Ret2Keeps(cfg: Config, s: State, t: nat, i: nat, j: nat)
    requires Inv(cfg, s) && t < cfg.T && s.pc[t] == Ret2(i, j)
    ensures Inv(cfg, StepRet2(cfg, s, t, i, j))
  {
    assert InvThread(cfg, s, t);
    hide *;
    Ret2Moves(cfg, s, t, i, j);
    LocalStep(cfg, s, StepRet2(cfg, s, t, i, j), t);
  }

  lemma FetchMoves(cfg: Config, s: State, t: nat)
    requires Shape(cfg, s) && t < cfg.T && s.pc[t].Fetch? && InvThread(cfg, s, t) && s.parsed == |s.hist|
    ensures Moves(cfg, s, StepFetch(cfg, s, t), t)
  {
  }

  lemma FetchKeeps(cfg: Config, s: State, t: nat)
    requires Inv(cfg, s) && t < cfg.T && s.pc[t].Fetch?
    ensures Inv(cfg, StepFetch(cfg, s, t))
  {
    assert InvThread(cfg, s, t);
    assert s.parsed == |s.hist|;
    hide *;
    FetchMoves(cfg, s, t);
    LocalStep(cfg, s, StepFetch(cfg, s, t), t);
  }

  lemma AsleepMoves(cfg: Config, s: State, t: nat)
    requires Shape(cfg, s) && t < cfg.T && s.pc[t].Asleep? && InvThread(cfg, s, t)
    ensures Moves(cfg, s, Goto(s, t, Scan(0)), t)
  {
  }

  /** Waking up, signalled or not. */
  lemma AsleepKeeps(cfg: Config, s: State, t: nat)
    requires Inv(cfg, s) && t < cfg.T && s.pc[t].Asleep?
    ensures Inv(cfg, Goto(s, t, Scan(0)))
  {
    assert InvThread(cfg, s, t);
    hide *;
    AsleepMoves(cfg, s, t);
    LocalStep(cfg, s, Goto(s, t, Scan(0)), t);
  }

  lemma ScanMoves(cfg: Config, s: State, t: nat, i: nat)
    requires Shape(cfg, s) && t < cfg.T && s.pc[t] == Scan(i) && i <= cfg.T + 1
    requires InvThread(cfg, s, t) && s.parsed == |s.hist|
    ensures Moves(cfg, s, StepScan(cfg, s, t, i), t)
  {
  }

  lemma ScanKeeps(cfg: Config, s: State, t: nat, i: nat)
    requires Inv(cfg, s) && t < cfg.T && s.pc[t] == Scan(i)
    ensures SlotOk(cfg, s.pc[t]) && Inv(cfg, StepScan(cfg, s, t, i))
  {
    assert SlotOk(cfg, s.pc[t]);
    assert i <= cfg.T + 1;
    assert InvThread(cfg, s, t);
    assert s.parsed == |s.hist|;
    hide *;
    ScanMoves(cfg, s, t, i);
    LocalStep(cfg, s, StepScan(cfg, s, t, i), t);
  }

  /** A waiter wakes only for the latest closed example, after it has been pushed. */
  lemma WaitIsOwed(cfg: Config, s: State, t: nat, j: nat)
    requires Inv(cfg, s) && t < cfg.T && s.pc[t] == Wait(j) && j < cfg.R
    requires s.slots[j].lock.None? && s.slots[j].done
    ensures Owes(s, t)
  {
    assert InvThread(cfg, s, t);
    var e := s.used[t] - 1;
    assert e >= s.closed ==> OpenSlot(cfg, s, e);
    if s.phase.Pushing? {
      PusherHolds(cfg, s);
    }
  }

  lemma PusherHolds(cfg: Config, s: State)
    requires Inv(cfg, s) && s.phase.Pushing?
    ensures s.closed > 0 && s.slots[(s.closed - 1) % cfg.R].lock.Some?
  {
    assert Holds(s.pc[s.phase.p], (s.closed - 1) % cfg.R);
  }

  lemma WaitMoves(cfg: Config, s: State, t: nat, j: nat)
    requires Shape(cfg, s) && t < cfg.T && s.pc[t] == Wait(j) && InvThread(cfg, s, t) && Owes(s, t)
    ensures Moves(cfg, s, Goto(s, t, Head), t)
  {
  }

  lemma WaitKeeps(cfg: Config, s: State, t: nat, j: nat)
    requires Inv(cfg, s) && t < cfg.T && s.pc[t] == Wait(j) && j < cfg.R
    ensures var r := StepWait(cfg, s, t, j); r.Some? ==> Inv(cfg, r.value)
  {
    assert InvThread(cfg, s, t);
    hide *;
    if s.slots[j].lock.None? && s.slots[j].done {
      WaitIsOwed(cfg, s, t, j);
      WaitMoves(cfg, s, t, j);
      LocalStep(cfg, s, Goto(s, t, Head), t);
    }
    assert StepWait(cfg, s, t, j) == if s.slots[j].lock.None? && s.slots[j].done then Some(Goto(s, t, Head)) else None;
  }

  // ------------------------------------------------------------ steps on the latest closed example

  ghost predicate OthersSame(cfg: Config, s: State, s': State, t: nat)
    requires Shape(cfg, s) && Shape(cfg, s')
  {
    forall k :: 0 <= k < cfg.T && k != t ==>
      s'.pc[k] == s.pc[k] && s'.used[k] == s.used[k] && s'.didx[k] == s.didx[k]
  }

  lemma Others(cfg: Config, s: State, s': State, t: nat)
    requires Shape(cfg, s) && Shape(cfg, s') && t < cfg.T
    requires OthersSame(cfg, s, s', t) && SameShared(cfg, s, s')
    requires InvThreads(cfg, s) && InvThread(cfg, s', t)
    ensures InvThreads(cfg, s')
    ensures forall k :: 0 <= k < cfg.T && k != t ==> SameStanding(cfg, s, s', k) && Trained(s', k) == Trained(s, k)
  {
    forall k | 0 <= k < cfg.T && k != t
      ensures InvThread(cfg, s', k) && SameStanding(cfg, s, s', k) && Trained(s', k) == Trained(s, k)
    {
      assert InvThread(cfg, s, k);
      OtherThread(cfg, s, s', k);
    }
  }

  /** Open examples live in other slots than the latest closed one while that is not freed. */
  lemma LatestApart(cfg: Config, s: State)
    requires Shape(cfg, s) && InvWindow(cfg, s) && !s.phase.Open?
    ensures s.closed > 0
    ensures forall e :: s.closed <= e < High(s) ==> e % cfg.R != (s.closed - 1) % cfg.R
  {
    forall e | s.closed <= e < High(s) ensures e % cfg.R != (s.closed - 1) % cfg.R {
      ModApart(s.closed - 1, e, cfg.R);
    }
  }

  /** The fields of a slot that matter while its example is open. */
  predicate SameOpenFields(a: Slot, b: Slot) {
    a.ex == b.ex && a.done == b.done && a.toFinish == b.toFinish && a.partial == b.partial
  }

  lemma OpenFrame(cfg: Config, s: State, s': State, c: nat)
    requires Shape(cfg, s) && Shape(cfg, s') && InvOpen(cfg, s) && s'.hist == s.hist
    requires s'.parser == s.parser && s.closed <= c && s'.closed == c
    requires forall e :: c <= e < High(s) ==> SameOpenFields(s'.slots[e % cfg.R], s.slots[e % cfg.R])
    requires forall e :: c <= e < |s.hist| ==> PredMask(cfg, s', e) == PredMask(cfg, s, e)
    requires s.parser.Publish? ==> c <= |s.hist|
    ensures InvOpen(cfg, s')
  {
    forall e | c <= e < |s.hist| ensures OpenSlot(cfg, s', e) {
      assert OpenSlot(cfg, s, e);
    }
  }

  /** A step on the latest closed example while the threads are training on it. */
  ghost predicate TrainingFrame(cfg: Config, s: State, s': State, t: nat)
    requires Shape(cfg, s) && Shape(cfg, s') && t < cfg.T
  {
    && s' == s.(pc := s'.pc, didx := s'.didx, weights := s'.weights, slots := s'.slots, toUse := s'.toUse,
                ring := s'.ring)
    && OthersSame(cfg, s, s', t) && s'.used[t] == s.used[t] && Predicted(s', t) == Predicted(s, t)
    && (forall i :: 0 <= i < cfg.R ==> SameBut(s'.slots[i], s.slots[i], i == (s.closed - 1) % cfg.R))
  }

  /** Equal but for the lock and, on the latest closed example, `threads_to_finish`. */
  predicate SameBut(a: Slot, b: Slot, latest: bool) {
    && a == b.(lock := a.lock, toFinish := a.toFinish)
    && (!latest ==> a.toFinish == b.toFinish)
  }

  lemma TrainingWindow(cfg: Config, s: State, s': State, t: nat)
    requires Shape(cfg, s) && Shape(cfg, s') && t < cfg.T && TrainingFrame(cfg, s, s', t)
    requires s.phase.Training? && InvWindow(cfg, s) && InvOpen(cfg, s)
    ensures InvWindow(cfg, s') && InvOpen(cfg, s')
  {
    assert forall e :: InUseAt(cfg, s', e) == InUseAt(cfg, s, e);
    LatestApart(cfg, s);
    forall e ensures PredMask(cfg, s', e) == PredMask(cfg, s, e) {}
    OpenFrame(cfg, s, s', s.closed);
  }

  lemma TrainingStep(cfg: Config, s: State, s': State, t: nat)
    requires Inv(cfg, s) && Shape(cfg, s') && t < cfg.T && TrainingFrame(cfg, s, s', t)
    requires s.phase.Training? && InvThread(cfg, s', t)
    requires s.local > 0 && InvTraining(cfg, s')
    requires InvLocks(cfg, s') && s'.weights[t] == Shard(cfg, s.hist, Trained(s', t), t)
    requires forall k :: 0 <= k < cfg.T && k != t ==> s'.weights[k] == s.weights[k]
    ensures Inv(cfg, s')
  {
    Others(cfg, s, s', t);
    TrainingWindow(cfg, s, s', t);
    assert InvWeights(cfg, s');
    assert InvPhase(cfg, s');
  }

  /** Moving the owner of one lock along with its program counter keeps the locks consistent. */
  lemma LocksKeep(cfg: Config, s: State, s': State, t: nat, j: nat)
    requires Shape(cfg, s) && Shape(cfg, s') && t < cfg.T && j < cfg.R && InvLocks(cfg, s)
    requires forall k :: 0 <= k < cfg.T && k != t ==> s'.pc[k] == s.pc[k]
    requires forall i :: 0 <= i < cfg.R && i != j ==> s'.slots[i].lock == s.slots[i].lock
    requires s.slots[j].lock.None? || s.slots[j].lock == Some(t)
    requires s'.slots[j].lock == (if Holds(s'.pc[t], j) then Some(t) else None)
    requires forall i :: 0 <= i < cfg.R && i != j ==> !Holds(s.pc[t], i) && !Holds(s'.pc[t], i)
    ensures InvLocks(cfg, s')
  {
  }

  // ------------------------------------------------------------ taking the example from the delay ring

  lemma Ret3Frame(cfg: Config, s: State, t: nat, i: nat, j: nat)
    requires Shape(cfg, s) && t < cfg.T && i < cfg.R && j < cfg.R && s.slots[j].lock.None?
    requires !s.pc[t].Pred?
    ensures var s' := StepRet3(cfg, s, t, i, j).value;
      Shape(cfg, s') && TrainingFrame(cfg, s, s', t) && s'.weights == s.weights
  {
  }

  lemma Ret3Thread(cfg: Config, s: State, s': State, t: nat, i: nat, j: nat)
    requires Shape(cfg, s) && Shape(cfg, s') && t < cfg.T && InvThread(cfg, s, t) && s.pc[t] == Ret3(i, j)
    requires TrainingFrame(cfg, s, s', t) && s'.didx == s.didx && (s'.pc[t] == Ret4(i, j) || s'.pc[t] == Train(j))
    ensures InvThread(cfg, s', t) && Trained(s', t) == Trained(s, t)
    ensures InUse(s, t) && !InUse(s', t) && InFinish(s', t) && InFinish(s, t)
  {
  }

  /** The masks after a step of thread `t` alone. */
  lemma MasksAfter(cfg: Config, s: State, s': State, t: nat)
    requires Shape(cfg, s) && Shape(cfg, s') && t < cfg.T && TrainingFrame(cfg, s, s', t)
    ensures InUse(s', t) == InUse(s, t) ==> UseMask(cfg, s') == UseMask(cfg, s)
    ensures InFinish(s', t) == InFinish(s, t) ==> FinMask(cfg, s') == FinMask(cfg, s)
    ensures !InUse(s', t) ==> UseMask(cfg, s') == UseMask(cfg, s)[t := false]
    ensures !InFinish(s', t) ==> FinMask(cfg, s') == FinMask(cfg, s)[t := false]
  {
  }

  lemma Ret3Training(cfg: Config, s: State, s': State, t: nat, i: nat, j: nat)
    requires Shape(cfg, s) && s.closed > 0 && s.local > 0 && InvTraining(cfg, s) && t < cfg.T && i < cfg.R && j < cfg.R
    requires s.slots[j].lock.None? && s' == StepRet3(cfg, s, t, i, j).value && Shape(cfg, s')
    requires i == (s.local - 1) % cfg.R && j == (s.closed - 1) % cfg.R && UseMask(cfg, s)[t]
    requires UseMask(cfg, s') == UseMask(cfg, s)[t := false] && FinMask(cfg, s') == FinMask(cfg, s)
    ensures InvTraining(cfg, s')
  {
    CountOne(UseMask(cfg, s), t);
    CountNone(UseMask(cfg, s));
  }

  lemma Ret3Locks(cfg: Config, s: State, s': State, t: nat, i: nat, j: nat)
    requires Shape(cfg, s) && InvLocks(cfg, s) && t < cfg.T && i < cfg.R && j < cfg.R && s.pc[t] == Ret3(i, j)
    requires s.slots[j].lock.None? && s' == StepRet3(cfg, s, t, i, j).value && Shape(cfg, s')
    ensures InvLocks(cfg, s')
  {
    LocksKeep(cfg, s, s', t, j);
  }

  lemma Ret3Leads(cfg: Config, s: State, t: nat, i: nat, j: nat)
    requires Shape(cfg, s) && t < cfg.T && i < cfg.R && j < cfg.R && s.slots[j].lock.None?
    ensures var s' := StepRet3(cfg, s, t, i, j).value;
      |s'.pc| == cfg.T && s'.didx == s.didx && (s'.pc[t] == Ret4(i, j) || s'.pc[t] == Train(j))
  {
  }

  /** A thread at work on the latest closed example. */
  lemma AtWork(cfg: Config, s: State, t: nat)
    requires Inv(cfg, s) && t < cfg.T
    requires s.pc[t].Ret3? || s.pc[t].Ret4? || s.pc[t].Train? || s.pc[t].Fin?
    ensures InvThread(cfg, s, t) && s.phase.Training? && s.closed > 0 && s.local > 0 && InvTraining(cfg, s)
    ensures s.used[t] == s.closed && s.didx[t] == s.local && s.weights[t] == Shard(cfg, s.hist, Trained(s, t), t)
    ensures s.pc[t].Ret3? ==> s.pc[t] == Ret3((s.local - 1) % cfg.R, (s.closed - 1) % cfg.R)
    ensures s.pc[t].Ret4? ==> s.pc[t] == Ret4((s.local - 1) % cfg.R, (s.closed - 1) % cfg.R)
    ensures s.pc[t].Train? ==> s.pc[t] == Train((s.closed - 1) % cfg.R)
    ensures s.pc[t].Fin? ==> s.pc[t] == Fin((s.closed - 1) % cfg.R)
    ensures InvLocks(cfg, s)
  {
    assert InvThread(cfg, s, t);
  }

  lemma Ret3Keeps(cfg: Config, s: State, t: nat, i: nat, j: nat)
    requires Inv(cfg, s) && t < cfg.T && s.pc[t] == Ret3(i, j) && i < cfg.R && j < cfg.R
    requires s.slots[j].lock.None?
    ensures Inv(cfg, StepRet3(cfg, s, t, i, j).value)
  {
    AtWork(cfg, s, t);
    hide *;
    var s' := StepRet3(cfg, s, t, i, j).value;
    Ret3Frame(cfg, s, t, i, j);
    Ret3Leads(cfg, s, t, i, j);
    Ret3Thread(cfg, s, s', t, i, j);
    MasksAfter(cfg, s, s', t);
    Ret3Training(cfg, s, s', t, i, j);
    Ret3Locks(cfg, s, s', t, i, j);
    TrainingStep(cfg, s, s', t);
  }

  lemma Ret4Frame(cfg: Config, s: State, t: nat, i: nat, j: nat)
    requires Shape(cfg, s) && t < cfg.T && i < cfg.R && j < cfg.R
    requires !s.pc[t].Pred?
    ensures var s' := StepRet4(cfg, s, t, i, j);
      && Shape(cfg, s') && TrainingFrame(cfg, s, s', t) && s'.weights == s.weights && s'.didx == s.didx
      && s'.pc[t] == Train(j)
  {
  }

  lemma Ret4Thread(cfg: Config, s: State, s': State, t: nat, i: nat, j: nat)
    requires Shape(cfg, s) && Shape(cfg, s') && t < cfg.T && InvThread(cfg, s, t) && s.pc[t] == Ret4(i, j)
    requires TrainingFrame(cfg, s, s', t) && s'.didx == s.didx && s'.pc[t] == Train(j)
    ensures InvThread(cfg, s', t) && Trained(s', t) == Trained(s, t)
    ensures InUse(s', t) == InUse(s, t) && InFinish(s', t) == InFinish(s, t)
  {
  }

  lemma Ret4Training(cfg: Config, s: State, s': State, t: nat, i: nat, j: nat)
    requires Shape(cfg, s) && s.closed > 0 && s.local > 0 && InvTraining(cfg, s) && t < cfg.T && i < cfg.R && j < cfg.R
    requires s.slots[j].lock.Some? && s' == StepRet4(cfg, s, t, i, j) && Shape(cfg, s')
    requires i == (s.local - 1) % cfg.R && j == (s.closed - 1) % cfg.R
    requires UseMask(cfg, s') == UseMask(cfg, s) && FinMask(cfg, s') == FinMask(cfg, s)
    ensures InvTraining(cfg, s')
  {
    hide Count;
  }

  lemma Ret4Locks(cfg: Config, s: State, s': State, t: nat, i: nat, j: nat)
    requires Shape(cfg, s) && InvLocks(cfg, s) && t < cfg.T && i < cfg.R && j < cfg.R && s.pc[t] == Ret4(i, j)
    requires s' == StepRet4(cfg, s, t, i, j) && Shape(cfg, s')
    ensures InvLocks(cfg, s') && s.slots[j].lock.Some?
  {
    assert Holds(s.pc[t], j);
    LocksKeep(cfg, s, s', t, j);
  }

  lemma Ret4Keeps(cfg: Config, s: State, t: nat, i: nat, j: nat)
    requires Inv(cfg, s) && t < cfg.T && s.pc[t] == Ret4(i, j) && i < cfg.R && j < cfg.R
    ensures Inv(cfg, StepRet4(cfg, s, t, i, j))
  {
    AtWork(cfg, s, t);
    hide *;
    var s' := StepRet4(cfg, s, t, i, j);
    Ret4Frame(cfg, s, t, i, j);
    Ret4Thread(cfg, s, s', t, i, j);
    MasksAfter(cfg, s, s', t);
    Ret4Locks(cfg, s, s', t, i, j);
    Ret4Training(cfg, s, s', t, i, j);
    TrainingStep(cfg, s, s', t);
  }

  // ------------------------------------------------------------ training

  lemma TrainFrame(cfg: Config, s: State, t: nat, j: nat)
    requires Shape(cfg, s) && t < cfg.T && j < cfg.R
    requires !s.pc[t].Pred?
    ensures var s' := StepTrain(cfg, s, t, j);
      && Shape(cfg, s') && TrainingFrame(cfg, s, s', t) && s'.didx == s.didx && s'.pc[t] == Fin(j)
      && s'.slots == s.slots && s'.toUse == s.toUse && s'.ring == s.ring
      && s'.weights[t] == InlineTrain(s.weights[t], s.slots[j].ex.nss, t, s.slots[j].eta)
      && forall k :: 0 <= k < cfg.T && k != t ==> s'.weights[k] == s.weights[k]
  {
  }

  lemma TrainThread(cfg: Config, s: State, s': State, t: nat, j: nat)
    requires Shape(cfg, s) && Shape(cfg, s') && t < cfg.T && InvThread(cfg, s, t) && s.pc[t] == Train(j) && s.closed > 0
    requires TrainingFrame(cfg, s, s', t) && s'.didx == s.didx && s'.pc[t] == Fin(j)
    ensures InvThread(cfg, s', t) && Trained(s, t) == s.closed - 1 && Trained(s', t) == s.closed
    ensures InUse(s', t) == InUse(s, t) && InFinish(s', t) == InFinish(s, t)
  {
  }

  lemma SameTraining(cfg: Config, s: State, s': State)
    requires Shape(cfg, s) && s.closed > 0 && s.local > 0 && InvTraining(cfg, s)
    requires Shape(cfg, s') && s'.closed == s.closed && s'.local == s.local
    requires s'.slots == s.slots && s'.toUse == s.toUse && s'.ring == s.ring
    requires UseMask(cfg, s') == UseMask(cfg, s) && FinMask(cfg, s') == FinMask(cfg, s)
    ensures InvTraining(cfg, s')
  {
  }

  /** Locks do not move when neither the owner's program counter nor any lock does. */
  lemma SameLocks(cfg: Config, s: State, s': State, t: nat)
    requires Shape(cfg, s) && Shape(cfg, s') && t < cfg.T && InvLocks(cfg, s)
    requires forall k :: 0 <= k < cfg.T && k != t ==> s'.pc[k] == s.pc[k]
    requires forall i :: 0 <= i < cfg.R ==> s'.slots[i].lock == s.slots[i].lock
    requires forall i :: 0 <= i < cfg.R ==> !Holds(s.pc[t], i) && !Holds(s'.pc[t], i)
    ensures InvLocks(cfg, s')
  {
  }

  /** The latest closed example's slot carries the rate of the prediction. */
  lemma TrainedShard(cfg: Config, s: State, t: nat)
    requires Inv(cfg, s) && s.phase.Training? && t < cfg.T && s.closed > 0
    ensures var sl := s.slots[(s.closed - 1) % cfg.R];
      InlineTrain(Shard(cfg, s.hist, s.closed - 1, t), sl.ex.nss, t, sl.eta) == Shard(cfg, s.hist, s.closed, t)
  {
    hide InlineTrain, Shard, InvOpen, InvOut, InvTraining, InvThreads, InvWindow, InvLocks, Rate;
    NextShard(cfg, s.hist, s.closed - 1, t);
  }

  /** Training a slice moves it from the weights before the example to those after it. */
  lemma TrainKeeps(cfg: Config, s: State, t: nat, j: nat)
    requires Inv(cfg, s) && t < cfg.T && s.pc[t] == Train(j) && j < cfg.R
    ensures Inv(cfg, StepTrain(cfg, s, t, j))
  {
    AtWork(cfg, s, t);
    TrainedShard(cfg, s, t);
    hide *;
    var s' := StepTrain(cfg, s, t, j);
    TrainFrame(cfg, s, t, j);
    TrainThread(cfg, s, s', t, j);
    MasksAfter(cfg, s, s', t);
    SameTraining(cfg, s, s');
    NoLock(s.pc[t], s'.pc[t]);
    SameLocks(cfg, s, s', t);
    TrainingStep(cfg, s, s', t);
  }

  lemma NoLock(a: Pc, b: Pc)
    ensures forall i {:trigger Holds(a, i)} {:trigger Holds(b, i)} ::
              !(a.Ret4? || a.Push? || a.Drop? || a.Unlock?) && !(b.Ret4? || b.Push? || b.Drop? || b.Unlock?) ==>
              !Holds(a, i) && !Holds(b, i)
  {
  }

  // ------------------------------------------------------------ finish_example

  lemma FinFrame(cfg: Config, s: State, t: nat, j: nat)
    requires Shape(cfg, s) && t < cfg.T && j < cfg.R && s.slots[j].lock.None? && s.slots[j].toFinish != 1
    requires s.closed > 0 && j == (s.closed - 1) % cfg.R
    requires !s.pc[t].Pred?
    ensures var s' := StepFin(cfg, s, t, j).value;
      && Shape(cfg, s') && TrainingFrame(cfg, s, s', t) && s'.didx == s.didx && s'.pc[t] == Head
      && s'.weights == s.weights && s'.toUse == s.toUse && s'.ring == s.ring
      && s'.slots == s.slots[j := s.slots[j].(toFinish := s.slots[j].toFinish - 1)]
      && forall i :: 0 <= i < cfg.R ==> s'.slots[i].lock == s.slots[i].lock
  {
  }

  lemma FinThread(cfg: Config, s: State, s': State, t: nat, j: nat)
    requires Shape(cfg, s) && Shape(cfg, s') && t < cfg.T && InvThread(cfg, s, t) && s.pc[t] == Fin(j)
    requires TrainingFrame(cfg, s, s', t) && s'.didx == s.didx && s'.pc[t] == Head
    ensures InvThread(cfg, s', t) && Trained(s', t) == Trained(s, t)
    ensures !InUse(s, t) && !InUse(s', t) && InFinish(s, t) && !InFinish(s', t)
  {
  }

  lemma FinTraining(cfg: Config, s: State, s': State, t: nat, j: nat)
    requires Shape(cfg, s) && s.closed > 0 && s.local > 0 && InvTraining(cfg, s) && t < cfg.T && j < cfg.R
    requires Shape(cfg, s') && s'.closed == s.closed && s'.local == s.local && s'.toUse == s.toUse && s'.ring == s.ring
    requires j == (s.closed - 1) % cfg.R && s.slots[j].toFinish != 1
    requires s'.slots == s.slots[j := s.slots[j].(toFinish := s.slots[j].toFinish - 1)]
    requires FinMask(cfg, s)[t] && UseMask(cfg, s') == UseMask(cfg, s)
    requires FinMask(cfg, s') == FinMask(cfg, s)[t := false]
    ensures InvTraining(cfg, s')
  {
    CountOne(FinMask(cfg, s), t);
  }

  lemma FinKeepsMore(cfg: Config, s: State, t: nat, j: nat)
    requires Inv(cfg, s) && t < cfg.T && s.pc[t] == Fin(j) && j < cfg.R
    requires s.slots[j].toFinish != 1 && s.slots[j].lock.None?
    ensures Inv(cfg, StepFin(cfg, s, t, j).value)
  {
    AtWork(cfg, s, t);
    hide *;
    var s' := StepFin(cfg, s, t, j).value;
    FinFrame(cfg, s, t, j);
    FinThread(cfg, s, s', t, j);
    MasksAfter(cfg, s, s', t);
    FinTraining(cfg, s, s', t, j);
    NoLock(s.pc[t], s'.pc[t]);
    SameLocks(cfg, s, s', t);
    TrainingStep(cfg, s, s', t);
  }

  // ------------------------------------------------------------ the last finisher

  lemma OnlyOne(m: seq<bool>, t: nat)
    requires t < |m| && m[t] && Count(m) == 1
    ensures forall k :: 0 <= k < |m| && k != t ==> !m[k]
  {
    CountOne(m, t);
    CountNone(m[t := false]);
    forall k | 0 <= k < |m| && k != t ensures !m[k] {
      assert !m[t := false][k];
    }
  }

  /** Once the count reaches one, no other thread is still working on the latest closed example. */
  lemma FinLastAlone(cfg: Config, s: State, t: nat, j: nat)
    requires Shape(cfg, s) && s.closed > 0 && s.local > 0 && InvTraining(cfg, s) && t < cfg.T
    requires s.phase.Training? && s.used[t] == s.closed && s.pc[t] == Fin(j)
    requires j == (s.closed - 1) % cfg.R && s.slots[j].toFinish == 1
    ensures forall k :: 0 <= k < cfg.T && k != t ==> !InFinish(s, k)
    ensures s.slots[j].lock.None? ==> RingEmpty(cfg, s)
  {
    OnlyOne(FinMask(cfg, s), t);
    forall k | 0 <= k < cfg.T && k != t ensures !InFinish(s, k) {
      assert !FinMask(cfg, s)[k];
    }
    forall k | 0 <= k < cfg.T ensures !UseMask(cfg, s)[k] {
      assert InUse(s, k) ==> InFinish(s, k);
      assert !InUse(s, t);
    }
    CountNone(UseMask(cfg, s));
  }

  lemma FinLastThread(cfg: Config, s: State, s': State, t: nat, k: nat)
    requires Shape(cfg, s) && Shape(cfg, s') && t < cfg.T && k < cfg.T && k != t
    requires s'.pc[k] == s.pc[k] && s'.used == s.used && s'.didx == s.didx
    requires s' == s.(pc := s'.pc, slots := s'.slots, phase := Freeing(t))
    requires s.phase.Training? && InvThread(cfg, s, k) && !InFinish(s, k)
    ensures InvThread(cfg, s', k) && Trained(s', k) == Trained(s, k) && Predicted(s', k) == Predicted(s, k)
  {
  }

  /** The last `finish_example`. */
  ghost predicate FinLast(cfg: Config, s: State, s': State, t: nat, j: nat)
    requires Shape(cfg, s) && t < cfg.T && j < cfg.R
  {
    s' == s.(slots := s.slots[j := s.slots[j].(toFinish := 0)], phase := Freeing(t), pc := s.pc[t := Free(j)])
  }

  lemma FinLastStep(cfg: Config, s: State, t: nat, j: nat)
    requires Shape(cfg, s) && t < cfg.T && j < cfg.R && s.slots[j].toFinish == 1 && s.slots[j].lock.None?
    ensures var s' := StepFin(cfg, s, t, j).value; Shape(cfg, s') && FinLast(cfg, s, s', t, j)
  {
  }

  lemma FinLastSelf(cfg: Config, s: State, s': State, t: nat, j: nat)
    requires Shape(cfg, s) && Shape(cfg, s') && t < cfg.T && j < cfg.R && s.pc[t] == Fin(j)
    requires FinLast(cfg, s, s', t, j) && InvThread(cfg, s, t)
    ensures InvThread(cfg, s', t) && Trained(s', t) == Trained(s, t) && Predicted(s', t) == Predicted(s, t)
  {
  }

  lemma FinLastThreads(cfg: Config, s: State, s': State, t: nat, j: nat)
    requires Shape(cfg, s) && Shape(cfg, s') && t < cfg.T && j < cfg.R && s.pc[t] == Fin(j) && s.phase.Training?
    requires FinLast(cfg, s, s', t, j) && InvThreads(cfg, s) && s.closed <= |s.hist| && InvWeights(cfg, s)
    requires forall k :: 0 <= k < cfg.T && k != t ==> !InFinish(s, k)
    ensures InvThreads(cfg, s') && InvWeights(cfg, s')
    ensures forall k :: 0 <= k < cfg.T ==> Predicted(s', k) == Predicted(s, k)
  {
    hide InvThread, Trained, InFinish, Predicted;
    forall k | 0 <= k < cfg.T
      ensures InvThread(cfg, s', k) && Trained(s', k) == Trained(s, k) && Predicted(s', k) == Predicted(s, k)
    {
      assert InvThread(cfg, s, k);
      if k == t { FinLastSelf(cfg, s, s', t, j); } else { FinLastThread(cfg, s, s', t, k); }
    }
  }

  lemma FinLastSlots(cfg: Config, s: State, s': State, t: nat, j: nat)
    requires Shape(cfg, s) && Shape(cfg, s') && t < cfg.T && j < cfg.R && s.pc[t] == Fin(j) && s.phase.Training?
    requires InvWindow(cfg, s) && InvOpen(cfg, s) && InvLocks(cfg, s)
    requires FinLast(cfg, s, s', t, j) && j == (s.closed - 1) % cfg.R
    ensures InvWindow(cfg, s') && InvOpen(cfg, s') && InvLocks(cfg, s')
  {
    assert forall e :: InUseAt(cfg, s', e) == InUseAt(cfg, s, e);
    LatestApart(cfg, s);
    forall e ensures PredMask(cfg, s', e) == PredMask(cfg, s, e) {}
    OpenFrame(cfg, s, s', s.closed);
  }

  lemma FinLastPhase(cfg: Config, s: State, s': State, t: nat, j: nat)
    requires Shape(cfg, s) && Shape(cfg, s') && t < cfg.T && j < cfg.R && s.phase.Training?
    requires s.closed <= |s.hist| && InvPhase(cfg, s) && InvOut(cfg, s)
    requires FinLast(cfg, s, s', t, j) && j == (s.closed - 1) % cfg.R && RingEmpty(cfg, s)
    ensures InvPhase(cfg, s') && InvOut(cfg, s')
  {
    hide InvTraining;
  }

  lemma FinKeepsLast(cfg: Config, s: State, t: nat, j: nat)
    requires Inv(cfg, s) && t < cfg.T && s.pc[t] == Fin(j) && j < cfg.R
    requires s.slots[j].toFinish == 1 && s.slots[j].lock.None?
    ensures Inv(cfg, StepFin(cfg, s, t, j).value)
  {
    AtWork(cfg, s, t);
    Unpack(cfg, s, t);
    hide *;
    var s' := StepFin(cfg, s, t, j).value;
    FinLastStep(cfg, s, t, j);
    FinLastAlone(cfg, s, t, j);
    FinLastThreads(cfg, s, s', t, j);
    FinLastSlots(cfg, s, s', t, j);
    FinLastPhase(cfg, s, s', t, j);
    assert s'.hist == s.hist && s'.closed == s.closed;
    Collect(cfg, s');
  }

  // ------------------------------------------------------------ freeing

  /** `output_and_account_example` and `free_example` on the latest closed example. */
  ghost predicate Released(cfg: Config, s: State, s': State, t: nat, j: nat)
    requires Shape(cfg, s) && Shape(cfg, s') && t < cfg.T && j < cfg.R
  {
    && s' == Release1(s, j).(pc := s'.pc)
    && (forall k :: 0 <= k < cfg.T && k != t ==> s'.pc[k] == s.pc[k])
  }

  lemma ReleasedThread(cfg: Config, s: State, s': State, t: nat, j: nat, k: nat)
    requires Shape(cfg, s) && Shape(cfg, s') && t < cfg.T && j < cfg.R && k < cfg.T && k != t
    requires Released(cfg, s, s', t, j) && (s.phase == Freeing(t) || s.phase == Dropping(t))
    requires InvThread(cfg, s, k)
    ensures InvThread(cfg, s', k) && Trained(s', k) == Trained(s, k) && Predicted(s', k) == Predicted(s, k)
  {
  }

  lemma ReleasedWindow(cfg: Config, s: State, s': State, t: nat, j: nat)
    requires Shape(cfg, s) && Shape(cfg, s') && t < cfg.T && j < cfg.R && s.closed > 0
    requires Released(cfg, s, s', t, j) && (s.phase == Freeing(t) || s.phase == Dropping(t))
    requires j == (s.closed - 1) % cfg.R && InvWindow(cfg, s)
    ensures InvWindow(cfg, s')
  {
    LatestApart(cfg, s);
    forall e {:trigger InUseAt(cfg, s', e)} | s.closed <= e < s.closed + cfg.R
      ensures InUseAt(cfg, s', e) <==> e < High(s')
    {
      if e < s.closed - 1 + cfg.R {
        ModApart(s.closed - 1, e, cfg.R);
        assert InUseAt(cfg, s', e) == InUseAt(cfg, s, e);
      } else {
        ModAround(s.closed - 1, cfg.R);
      }
    }
  }

  lemma ReleasedThreads(cfg: Config, s: State, s': State, t: nat, j: nat)
    requires Shape(cfg, s) && Shape(cfg, s') && t < cfg.T && j < cfg.R && s.closed > 0 && s.closed <= |s.hist|
    requires Released(cfg, s, s', t, j) && (s.phase == Freeing(t) || s.phase == Dropping(t))
    requires InvThreads(cfg, s) && InvWeights(cfg, s)
    requires InvThread(cfg, s', t) && Predicted(s', t) == Predicted(s, t) && Trained(s', t) == Trained(s, t)
    ensures InvThreads(cfg, s') && InvWeights(cfg, s')
    ensures forall k :: 0 <= k < cfg.T ==> Predicted(s', k) == Predicted(s, k)
  {
    hide InvThread, Trained, Predicted;
    forall k | 0 <= k < cfg.T
      ensures InvThread(cfg, s', k) && Trained(s', k) == Trained(s, k) && Predicted(s', k) == Predicted(s, k)
    {
      assert InvThread(cfg, s, k);
      if k != t { ReleasedThread(cfg, s, s', t, j, k); }
    }
  }

  /** The prediction that is output is the next one. */
  lemma ReleasedOut(cfg: Config, s: State, s': State, t: nat, j: nat)
    requires Shape(cfg, s) && Shape(cfg, s') && t < cfg.T && j < cfg.R && s.closed > 0 && s.closed <= |s.hist|
    requires Released(cfg, s, s', t, j) && (s.phase == Freeing(t) || s.phase == Dropping(t))
    requires j == (s.closed - 1) % cfg.R && InvOut(cfg, s) && InvPhase(cfg, s)
    ensures InvOut(cfg, s') && InvPhase(cfg, s')
  {
    hide Prediction, InvTraining;
    assert RingEmpty(cfg, s') == RingEmpty(cfg, s);
  }

  lemma ReleasedOpen(cfg: Config, s: State, s': State, t: nat, j: nat)
    requires Shape(cfg, s) && Shape(cfg, s') && t < cfg.T && j < cfg.R && InvOpen(cfg, s)
    requires Released(cfg, s, s', t, j) && forall k :: 0 <= k < cfg.T ==> Predicted(s', k) == Predicted(s, k)
    requires s.closed <= |s.hist|
    ensures InvOpen(cfg, s')
  {
    hide Predicted;
    forall e ensures PredMask(cfg, s', e) == PredMask(cfg, s, e) {}
    OpenFrame(cfg, s, s', s.closed);
  }

  lemma ReleaseKeeps(cfg: Config, s: State, s': State, t: nat, j: nat)
    requires Inv(cfg, s) && Shape(cfg, s') && t < cfg.T && j < cfg.R && s.closed > 0
    requires Released(cfg, s, s', t, j) && (s.phase == Freeing(t) || s.phase == Dropping(t))
    requires j == (s.closed - 1) % cfg.R && InvLocks(cfg, s')
    requires InvThread(cfg, s', t) && Predicted(s', t) == Predicted(s, t) && Trained(s', t) == Trained(s, t)
    ensures Inv(cfg, s')
  {
    Unpack(cfg, s, t);
    assert s'.hist == s.hist && s'.closed == s.closed;
    hide *;
    ReleasedThreads(cfg, s, s', t, j);
    ReleasedWindow(cfg, s, s', t, j);
    ReleasedOut(cfg, s, s', t, j);
    ReleasedOpen(cfg, s, s', t, j);
    Collect(cfg, s');
  }

  lemma FreeStep(cfg: Config, s: State, t: nat, j: nat)
    requires Shape(cfg, s) && t < cfg.T && j < cfg.R && s.pc[t] == Free(j) && InvThread(cfg, s, t) && InvLocks(cfg, s)
    ensures var s' := StepFree(cfg, s, t, j);
      && Shape(cfg, s') && Released(cfg, s, s', t, j) && InvLocks(cfg, s')
      && s.phase == Freeing(t) && j == (s.closed - 1) % cfg.R
  {
  }

  lemma FreeThread(cfg: Config, s: State, s': State, t: nat, j: nat)
    requires Shape(cfg, s) && Shape(cfg, s') && t < cfg.T && j < cfg.R && s.pc[t] == Free(j) && InvThread(cfg, s, t)
    requires Released(cfg, s, s', t, j) && s'.pc[t] == Head
    ensures InvThread(cfg, s', t) && Predicted(s', t) == Predicted(s, t) && Trained(s', t) == Trained(s, t)
  {
  }

  lemma FreeKeeps(cfg: Config, s: State, t: nat, j: nat)
    requires Inv(cfg, s) && t < cfg.T && s.pc[t] == Free(j) && j < cfg.R
    ensures Inv(cfg, StepFree(cfg, s, t, j))
  {
    Unpack(cfg, s, t);
    assert s.closed > 0;
    hide *;
    var s' := StepFree(cfg, s, t, j);
    FreeStep(cfg, s, t, j);
    FreeThread(cfg, s, s', t, j);
    ReleaseKeeps(cfg, s, s', t, j);
  }

  lemma DropStep(cfg: Config, s: State, t: nat, j: nat)
    requires Shape(cfg, s) && t < cfg.T && j < cfg.R && s.pc[t] == Drop(j) && InvThread(cfg, s, t) && InvLocks(cfg, s)
    ensures var s' := StepDrop(cfg, s, t, j);
      && Shape(cfg, s') && Released(cfg, s, s', t, j) && InvLocks(cfg, s') && s'.pc[t] == Unlock(j)
      && s.phase == Dropping(t) && j == (s.closed - 1) % cfg.R
  {
    assert Holds(s.pc[t], j);
    LocksKeep(cfg, s, StepDrop(cfg, s, t, j), t, j);
  }

  lemma DropThread(cfg: Config, s: State, s': State, t: nat, j: nat)
    requires Shape(cfg, s) && Shape(cfg, s') && t < cfg.T && j < cfg.R && s.pc[t] == Drop(j) && InvThread(cfg, s, t)
    requires Released(cfg, s, s', t, j) && s'.pc[t] == Unlock(j) && s.closed > 0
    ensures InvThread(cfg, s', t) && Predicted(s', t) == Predicted(s, t) && Trained(s', t) == Trained(s, t)
  {
  }

  lemma DropKeeps(cfg: Config, s: State, t: nat, j: nat)
    requires Inv(cfg, s) && t < cfg.T && s.pc[t] == Drop(j) && j < cfg.R
    ensures Inv(cfg, StepDrop(cfg, s, t, j))
  {
    Unpack(cfg, s, t);
    assert s.closed > 0;
    hide *;
    var s' := StepDrop(cfg, s, t, j);
    DropStep(cfg, s, t, j);
    DropThread(cfg, s, s', t, j);
    ReleaseKeeps(cfg, s, s', t, j);
  }

  /** Giving back the lock of an example that is already freed, perhaps even taken again. */
  lemma UnlockThread(cfg: Config, s: State, t: nat, j: nat)
    requires Shape(cfg, s) && t < cfg.T && j < cfg.R && s.pc[t] == Unlock(j) && InvThread(cfg, s, t)
    ensures var s' := StepUnlock(cfg, s, t, j);
      && Shape(cfg, s') && InvThread(cfg, s', t) && SameShared(cfg, s, s') && OthersSame(cfg, s, s', t)
      && SameStanding(cfg, s, s', t) && Trained(s', t) == Trained(s, t) && s.phase.Open?
  {
  }

  lemma UnlockLocks(cfg: Config, s: State, t: nat, j: nat)
    requires Shape(cfg, s) && t < cfg.T && j < cfg.R && s.pc[t] == Unlock(j) && InvLocks(cfg, s)
    ensures Shape(cfg, StepUnlock(cfg, s, t, j)) && InvLocks(cfg, StepUnlock(cfg, s, t, j))
  {
    assert Holds(s.pc[t], j);
    LocksKeep(cfg, s, StepUnlock(cfg, s, t, j), t, j);
  }

  lemma UnlockSlots(cfg: Config, s: State, s': State, t: nat, j: nat)
    requires Shape(cfg, s) && Shape(cfg, s') && t < cfg.T && j < cfg.R && s' == StepUnlock(cfg, s, t, j)
    requires s.phase.Open? && s.closed <= |s.hist| && InvWindow(cfg, s) && InvOut(cfg, s) && InvPhase(cfg, s)
    ensures InvWindow(cfg, s') && InvOut(cfg, s') && InvPhase(cfg, s')
  {
    assert forall e :: InUseAt(cfg, s', e) == InUseAt(cfg, s, e);
    assert RingEmpty(cfg, s') == RingEmpty(cfg, s);
  }

  lemma UnlockOpen(cfg: Config, s: State, s': State, t: nat, j: nat)
    requires Shape(cfg, s) && Shape(cfg, s') && t < cfg.T && j < cfg.R && s' == StepUnlock(cfg, s, t, j)
    requires s.closed <= |s.hist| && InvOpen(cfg, s) && InvWeights(cfg, s)
    requires forall k :: 0 <= k < cfg.T ==> SameStanding(cfg, s, s', k) && Trained(s', k) == Trained(s, k)
    ensures InvOpen(cfg, s') && InvWeights(cfg, s')
  {
    hide InUse, InTrain, InFinish, Trained, Predicted;
    forall e ensures PredMask(cfg, s', e) == PredMask(cfg, s, e) {
      forall k | 0 <= k < cfg.T ensures PredMask(cfg, s', e)[k] == PredMask(cfg, s, e)[k] {
        assert SameStanding(cfg, s, s', k);
      }
    }
    OpenFrame(cfg, s, s', s.closed);
  }

  lemma UnlockKeeps(cfg: Config, s: State, t: nat, j: nat)
    requires Inv(cfg, s) && t < cfg.T && s.pc[t] == Unlock(j) && j < cfg.R
    ensures Inv(cfg, StepUnlock(cfg, s, t, j))
  {
    Unpack(cfg, s, t);
    hide *;
    var s' := StepUnlock(cfg, s, t, j);
    UnlockThread(cfg, s, t, j);
    UnlockLocks(cfg, s, t, j);
    Others(cfg, s, s', t);
    UnlockSlots(cfg, s, s', t, j);
    UnlockOpen(cfg, s, s', t, j);
    assert s'.hist == s.hist && s'.closed == s.closed;
    Collect(cfg, s');
  }

  // ------------------------------------------------------------ pushing onto the delay ring

  lemma PushThread(cfg: Config, s: State, s': State, t: nat, k: nat)
    requires Shape(cfg, s) && Shape(cfg, s') && t < cfg.T && k < cfg.T
    requires s.phase == Pushing(t) && InvThread(cfg, s, k)
    requires s' == s.(pc := s.pc[t := Head], slots := s'.slots, ring := s'.ring, toUse := s'.toUse,
                      local := s.local + 1, phase := Training)
    ensures InvThread(cfg, s', k) && InUse(s', k) && Predicted(s', k) == Predicted(s, k)
    ensures s.closed > 0 ==> Trained(s', k) == Trained(s, k)
  {
  }

  /** The push itself. */
  ghost predicate Pushed(cfg: Config, s: State, s': State, t: nat, j: nat)
    requires Shape(cfg, s) && t < cfg.T && j < cfg.R
  {
    s' == s.(pc := s.pc[t := Head], local := s.local + 1, phase := Training,
             ring := s.ring[s.local % cfg.R := Some(j)], toUse := s.toUse[s.local % cfg.R := cfg.T],
             slots := s.slots[j := s.slots[j].(toFinish := cfg.T, lock := None)])
  }

  lemma PushStep(cfg: Config, s: State, t: nat, j: nat)
    requires Shape(cfg, s) && t < cfg.T && j < cfg.R && RingEmpty(cfg, s)
    ensures StepPush(cfg, s, t, j).Some? && Shape(cfg, StepPush(cfg, s, t, j).value)
    ensures Pushed(cfg, s, StepPush(cfg, s, t, j).value, t, j)
  {
  }

  lemma PushThreads(cfg: Config, s: State, s': State, t: nat, j: nat)
    requires Shape(cfg, s) && Shape(cfg, s') && t < cfg.T && j < cfg.R && Pushed(cfg, s, s', t, j)
    requires s.phase == Pushing(t) && 0 < s.closed <= |s.hist| && InvThreads(cfg, s) && InvWeights(cfg, s)
    ensures InvThreads(cfg, s') && InvWeights(cfg, s')
    ensures forall k :: 0 <= k < cfg.T ==> Predicted(s', k) == Predicted(s, k) && InUse(s', k)
  {
    hide InvThread, Trained, Predicted, InUse;
    forall k | 0 <= k < cfg.T
      ensures InvThread(cfg, s', k) && Trained(s', k) == Trained(s, k)
      ensures Predicted(s', k) == Predicted(s, k) && InUse(s', k)
    {
      assert InvThread(cfg, s, k);
      PushThread(cfg, s, s', t, k);
    }
  }

  lemma PushPhase(cfg: Config, s: State, s': State, t: nat, j: nat)
    requires Shape(cfg, s) && Shape(cfg, s') && t < cfg.T && j < cfg.R && Pushed(cfg, s, s', t, j)
    requires s.phase == Pushing(t) && 0 < s.closed <= |s.hist| && InvPhase(cfg, s) && InvOut(cfg, s)
    requires j == (s.closed - 1) % cfg.R && forall k :: 0 <= k < cfg.T ==> InUse(s', k)
    ensures InvPhase(cfg, s') && InvOut(cfg, s')
  {
    forall k | 0 <= k < cfg.T ensures InFinish(s', k) { assert InUse(s', k); }
    hide InUse, InFinish;
    CountAll(UseMask(cfg, s'));
    CountAll(FinMask(cfg, s'));
  }

  lemma PushSlots(cfg: Config, s: State, s': State, t: nat, j: nat)
    requires Shape(cfg, s) && Shape(cfg, s') && t < cfg.T && j < cfg.R && Pushed(cfg, s, s', t, j)
    requires s.phase.Pushing? && s.pc[t] == Push(j) && j == (s.closed - 1) % cfg.R && s.closed <= |s.hist|
    requires InvWindow(cfg, s) && InvOpen(cfg, s)
    requires forall k :: 0 <= k < cfg.T ==> Predicted(s', k) == Predicted(s, k)
    ensures InvWindow(cfg, s') && InvOpen(cfg, s')
  {
    hide Predicted;
    assert forall e :: InUseAt(cfg, s', e) == InUseAt(cfg, s, e);
    LatestApart(cfg, s);
    forall e ensures PredMask(cfg, s', e) == PredMask(cfg, s, e) {}
    OpenFrame(cfg, s, s', s.closed);
  }

  lemma PushLocks(cfg: Config, s: State, s': State, t: nat, j: nat)
    requires Shape(cfg, s) && Shape(cfg, s') && t < cfg.T && j < cfg.R && Pushed(cfg, s, s', t, j)
    requires s.pc[t] == Push(j) && InvLocks(cfg, s)
    ensures InvLocks(cfg, s')
  {
    assert Holds(s.pc[t], j);
    LocksKeep(cfg, s, s', t, j);
  }

  /** What the last predictor of a labelled example finds. */
  lemma AtPush(cfg: Config, s: State, t: nat, j: nat)
    requires Shape(cfg, s) && t < cfg.T && s.pc[t] == Push(j) && InvThread(cfg, s, t)
    requires s.closed <= |s.hist| && InvPhase(cfg, s)
    ensures s.phase == Pushing(t) && s.closed > 0 && j == (s.closed - 1) % cfg.R && RingEmpty(cfg, s)
  {
  }

  /** The push finds the delay ring empty, so it never waits, and it keeps the invariant. */
  lemma PushKeeps(cfg: Config, s: State, t: nat, j: nat)
    requires Inv(cfg, s) && t < cfg.T && s.pc[t] == Push(j) && j < cfg.R
    ensures StepPush(cfg, s, t, j).Some? && Inv(cfg, StepPush(cfg, s, t, j).value)
  {
    Unpack(cfg, s, t);
    hide *;
    AtPush(cfg, s, t, j);
    PushStep(cfg, s, t, j);
    var s' := StepPush(cfg, s, t, j).value;
    PushThreads(cfg, s, s', t, j);
    PushPhase(cfg, s, s', t, j);
    PushSlots(cfg, s, s', t, j);
    PushLocks(cfg, s, s', t, j);
    assert s'.closed <= |s'.hist| by { PushedClosed(cfg, s, s', t, j); }
    Collect(cfg, s');
  }

  lemma PushedClosed(cfg: Config, s: State, s': State, t: nat, j: nat)
    requires Shape(cfg, s) && t < cfg.T && j < cfg.R && Pushed(cfg, s, s', t, j)
    ensures s'.hist == s.hist && s'.closed == s.closed
  {
  }

  // ------------------------------------------------------------ predicting

  /** A predicting thread's slice has seen every example before the one it is at. */
  lemma PredSlice(cfg: Config, s: State, t: nat)
    requires Shape(cfg, s) && s.closed <= |s.hist| && InvWeights(cfg, s)
    requires t < cfg.T && s.pc[t].Pred? && InvThread(cfg, s, t)
    ensures s.used[t] > 0
    ensures s.weights[t] == Shard(cfg, s.hist, s.used[t] - 1, t)
  {
    var e := s.used[t] - 1;
    UntrainedBetween(cfg, s.hist, s.closed, e);
  }

  ghost predicate AtPred(cfg: Config, s: State, t: nat, j: nat)
    requires Shape(cfg, s)
  {
    t < cfg.T && s.pc[t] == Pred(j) && j < cfg.R && s.slots[j].lock.None?
  }

  /** The slot that a predicting thread locks holds its example, and the thread is counted there. */
  lemma PredSlot(cfg: Config, s: State, t: nat, j: nat)
    requires Inv(cfg, s) && AtPred(cfg, s, t, j)
    ensures s.closed < s.used[t] <= |s.hist|
    ensures j == (s.used[t] - 1) % cfg.R && OpenSlot(cfg, s, s.used[t] - 1)
    ensures PredMask(cfg, s, s.used[t] - 1)[t]
  {
    assert InvThread(cfg, s, t);
  }

  /** Other open examples' masks are unaffected when `t` adds its prediction to example `e`. */
  lemma PredMasks(cfg: Config, s: State, s': State, t: nat)
    requires Shape(cfg, s) && Shape(cfg, s') && t < cfg.T && s.pc[t].Pred? && !s'.pc[t].Pred?
    requires s'.used == s.used && s.used[t] > 0
    requires forall k :: 0 <= k < cfg.T && k != t ==> s'.pc[k] == s.pc[k]
    ensures PredMask(cfg, s', s.used[t] - 1) == PredMask(cfg, s, s.used[t] - 1)[t := false]
    ensures forall e: nat :: e != s.used[t] - 1 ==> PredMask(cfg, s', e) == PredMask(cfg, s, e)
  {
    forall e: nat | e != s.used[t] - 1 ensures PredMask(cfg, s', e) == PredMask(cfg, s, e) {}
  }

  lemma OpenApart(cfg: Config, s: State, a: nat)
    requires Shape(cfg, s) && InvWindow(cfg, s) && Low(s) <= a < High(s)
    ensures forall e :: Low(s) <= e < High(s) && e != a ==> e % cfg.R != a % cfg.R
  {
    forall e | Low(s) <= e < High(s) && e != a ensures e % cfg.R != a % cfg.R {
      if e < a { ModApart(e, a, cfg.R); } else { ModApart(a, e, cfg.R); }
    }
  }

  /** `predict` when other threads still owe their prediction. */
  ghost predicate PredMore(cfg: Config, s: State, s': State, t: nat, j: nat)
    requires Shape(cfg, s) && t < cfg.T && j < cfg.R
  {
    var sl := s.slots[j];
    var sl' := sl.(partial := sl.partial + InlinePredict(s.weights[t], sl.ex.nss, t), toFinish := sl.toFinish - 1);
    s' == s.(slots := s.slots[j := sl'], pc := s.pc[t := if Trains(cfg, sl.ex) then Wait(j) else Head])
  }

  lemma PredMoreStep(cfg: Config, s: State, t: nat, j: nat)
    requires Shape(cfg, s) && AtPred(cfg, s, t, j) && s.slots[j].toFinish != 1
    ensures var r := StepPred(cfg, s, t, j);
      r.Some? && Shape(cfg, r.value) && PredMore(cfg, s, r.value, t, j)
  {
  }

  /** The example's own slot after `t` has added its prediction. */
  lemma PredMoreSlot(cfg: Config, s: State, s': State, t: nat, j: nat, e: nat)
    requires Shape(cfg, s) && t < cfg.T && j < cfg.R && s.pc[t] == Pred(j)
    requires Shape(cfg, s') && PredMore(cfg, s, s', t, j)
    requires e < |s.hist| && j == e % cfg.R && OpenSlot(cfg, s, e) && s.slots[j].toFinish != 1
    requires PredMask(cfg, s, e)[t] && PredMask(cfg, s', e) == PredMask(cfg, s, e)[t := false]
    requires s.weights[t] == Shard(cfg, s.hist, e, t)
    ensures OpenSlot(cfg, s', e)
  {
    var m := PredMask(cfg, s, e);
    CountOne(m, t);
    SumOne(m, Dots(cfg, s.hist, e), t);
  }

  lemma OpenSlotFrame(cfg: Config, s: State, s': State, e: nat)
    requires Shape(cfg, s) && Shape(cfg, s') && s'.hist == s.hist && e < |s.hist| && OpenSlot(cfg, s, e)
    requires SameOpenFields(s'.slots[e % cfg.R], s.slots[e % cfg.R])
    requires PredMask(cfg, s', e) == PredMask(cfg, s, e)
    ensures OpenSlot(cfg, s', e)
  {
  }

  lemma PredMoreOpen(cfg: Config, s: State, s': State, t: nat, j: nat, e0: nat)
    requires Shape(cfg, s) && InvWindow(cfg, s) && InvOpen(cfg, s) && t < cfg.T && j < cfg.R
    requires s.pc[t] == Pred(j) && s.closed <= e0 < |s.hist| && j == e0 % cfg.R
    requires Shape(cfg, s') && PredMore(cfg, s, s', t, j) && OpenSlot(cfg, s', e0)
    requires forall e: nat :: e != e0 ==> PredMask(cfg, s', e) == PredMask(cfg, s, e)
    ensures InvOpen(cfg, s')
  {
    OpenApart(cfg, s, e0);
    forall e | s.closed <= e < |s.hist| && e != e0 ensures OpenSlot(cfg, s', e) {
      assert OpenSlot(cfg, s, e);
      OpenSlotFrame(cfg, s, s', e);
    }
    assert High(s) > |s.hist| ==> |s.hist| % cfg.R != j;
  }

  lemma PredMoreSlots(cfg: Config, s: State, s': State, t: nat, j: nat)
    requires Shape(cfg, s) && InvWindow(cfg, s) && InvOpen(cfg, s) && InvWeights(cfg, s) && t < cfg.T && j < cfg.R
    requires s.pc[t] == Pred(j) && InvThread(cfg, s, t)
    requires Shape(cfg, s') && PredMore(cfg, s, s', t, j) && s.slots[j].toFinish != 1
    ensures InvOpen(cfg, s')
  {
    var e0 := s.used[t] - 1;
    assert OpenSlot(cfg, s, e0);
    assert s.closed <= e0 < |s.hist| && j == e0 % cfg.R && PredMask(cfg, s, e0)[t] && !s'.pc[t].Pred?;
    assert s'.used == s.used && s'.hist == s.hist && forall k :: 0 <= k < cfg.T && k != t ==> s'.pc[k] == s.pc[k];
    hide *;
    PredSlice(cfg, s, t);
    PredMasks(cfg, s, s', t);
    PredMoreSlot(cfg, s, s', t, j, e0);
    PredMoreOpen(cfg, s, s', t, j, e0);
  }

  lemma PredMoreThread(cfg: Config, s: State, s': State, t: nat, j: nat)
    requires Shape(cfg, s) && t < cfg.T && j < cfg.R && s.pc[t] == Pred(j) && InvThread(cfg, s, t)
    requires Shape(cfg, s') && PredMore(cfg, s, s', t, j) && s.used[t] > 0 && s.slots[j].ex == s.hist[s.used[t] - 1]
    ensures InvThread(cfg, s', t) && Trained(s', t) == Trained(s, t)
    ensures InUse(s', t) == InUse(s, t) && InFinish(s', t) == InFinish(s, t)
  {
  }

  lemma PredMoreWindow(cfg: Config, s: State, s': State, t: nat, j: nat)
    requires Shape(cfg, s) && InvWindow(cfg, s) && InvLocks(cfg, s) && t < cfg.T && j < cfg.R
    requires s.pc[t] == Pred(j) && Shape(cfg, s') && PredMore(cfg, s, s', t, j)
    ensures InvWindow(cfg, s') && InvLocks(cfg, s')
  {
    assert forall e :: InUseAt(cfg, s', e) == InUseAt(cfg, s, e);
  }

  /** An open example's slot is not the latest closed one, so the delay ring's view is unchanged. */
  lemma PredMorePhase(cfg: Config, s: State, s': State, t: nat, j: nat)
    requires Shape(cfg, s) && s.closed <= |s.hist| && InvPhase(cfg, s) && t < cfg.T && j < cfg.R
    requires s.pc[t] == Pred(j) && Shape(cfg, s') && PredMore(cfg, s, s', t, j)
    requires !s.phase.Open? ==> j != (s.closed - 1) % cfg.R
    requires UseMask(cfg, s') == UseMask(cfg, s) && FinMask(cfg, s') == FinMask(cfg, s)
    ensures InvPhase(cfg, s')
  {
    assert RingEmpty(cfg, s') == RingEmpty(cfg, s);
    if s.phase.Training? {
      assert InvTraining(cfg, s');
    }
  }

  lemma PredMoreThreads(cfg: Config, s: State, s': State, t: nat, j: nat)
    requires Shape(cfg, s) && s.closed <= |s.hist| && InvThreads(cfg, s) && InvWeights(cfg, s) && t < cfg.T && j < cfg.R
    requires s.pc[t] == Pred(j) && s.used[t] > 0 && s.used[t] <= |s.hist| && s.slots[j].ex == s.hist[s.used[t] - 1]
    requires Shape(cfg, s') && PredMore(cfg, s, s', t, j)
    ensures InvThreads(cfg, s') && InvWeights(cfg, s')
    ensures UseMask(cfg, s') == UseMask(cfg, s) && FinMask(cfg, s') == FinMask(cfg, s)
  {
    assert InvThread(cfg, s, t);
    PredMoreThread(cfg, s, s', t, j);
    Others(cfg, s, s', t);
    forall k | 0 <= k < cfg.T
      ensures InUse(s', k) == InUse(s, k) && InFinish(s', k) == InFinish(s, k) && Trained(s', k) == Trained(s, k)
    {
      if k != t { assert SameStanding(cfg, s, s', k); }
    }
    assert UseMask(cfg, s') == UseMask(cfg, s);
    assert FinMask(cfg, s') == FinMask(cfg, s);
  }

  lemma PredMoreOut(cfg: Config, s: State, s': State, t: nat, j: nat)
    requires Shape(cfg, s) && t < cfg.T && j < cfg.R && PredMore(cfg, s, s', t, j) && InvOut(cfg, s)
    ensures InvOut(cfg, s') && s'.hist == s.hist && s'.closed == s.closed
  {
  }

  lemma PredKeepsMore(cfg: Config, s: State, t: nat, j: nat)
    requires Inv(cfg, s) && AtPred(cfg, s, t, j) && s.slots[j].toFinish != 1
    ensures Inv(cfg, StepPred(cfg, s, t, j).value)
  {
    Unpack(cfg, s, t);
    PredSlot(cfg, s, t, j);
    PredMoreStep(cfg, s, t, j);
    if !s.phase.Open? { LatestApart(cfg, s); }
    assert s.used[t] > 0 && s.slots[j].ex == s.hist[s.used[t] - 1];
    assert !s.phase.Open? ==> j != (s.closed - 1) % cfg.R;
    hide *;
    var s' := StepPred(cfg, s, t, j).value;
    PredMoreSlots(cfg, s, s', t, j);
    PredMoreThreads(cfg, s, s', t, j);
    PredMoreWindow(cfg, s, s', t, j);
    PredMorePhase(cfg, s, s', t, j);
    PredMoreOut(cfg, s, s', t, j);
    Collect(cfg, s');
  }

  // ------------------------------------------------------------ the last predictor closes the example

  /** Once everyone has added its part, the sum is the whole prediction. */
  lemma WholePrediction(cfg: Config, hist: seq<Example>, e: nat, m: seq<bool>)
    requires e < |hist| && |m| == cfg.T && forall k :: 0 <= k < |m| ==> !m[k]
    ensures Finalize(cfg.lo, cfg.hi, SumDone(m, Dots(cfg, hist, e))) == Prediction(cfg, hist, e)
  {
    SumAll(m, Dots(cfg, hist, e));
    PredictionIs(cfg, hist, e);
  }

  /** The last predictor is at the first open example, everybody else is past it. */
  lemma LastIsFirstOpen(cfg: Config, s: State, t: nat, j: nat)
    requires Shape(cfg, s) && s.closed <= |s.hist| && InvOpen(cfg, s) && t < cfg.T && j < cfg.R
    requires s.pc[t] == Pred(j) && InvThread(cfg, s, t) && s.slots[j].toFinish == 1
    ensures s.used[t] - 1 == s.closed < |s.hist|
    ensures forall k :: 0 <= k < cfg.T && k != t ==> Predicted(s, k) > s.closed
  {
    var e := s.used[t] - 1;
    assert OpenSlot(cfg, s, e);
    OnlyOne(PredMask(cfg, s, e), t);
    assert forall k :: 0 <= k < cfg.T && k != t ==> !PredMask(cfg, s, e)[k];
    assert OpenSlot(cfg, s, s.closed);
    CountNone(PredMask(cfg, s, s.closed));
  }

  /** While the latest closed example is not freed, some thread has predicted nothing after it. */
  lemma StandsAtClosed(cfg: Config, s: State) returns (k: nat)
    requires Shape(cfg, s) && s.closed <= |s.hist| && InvPhase(cfg, s) && InvThreads(cfg, s) && !s.phase.Open?
    ensures k < cfg.T && Predicted(s, k) == s.closed && !s.pc[k].Pred?
  {
    match s.phase
    case Training =>
      CountNone(FinMask(cfg, s));
      k :| 0 <= k < cfg.T && FinMask(cfg, s)[k];
      assert InFinish(s, k);
    case Dropping(d) => k := d; assert InvThread(cfg, s, d);
    case Pushing(d) => k := d; assert InvThread(cfg, s, d);
    case Freeing(d) => k := d; assert InvThread(cfg, s, d);
  }

  /** No earlier example is still being worked on when an example closes. */
  lemma LastMeansOpen(cfg: Config, s: State, t: nat)
    requires Shape(cfg, s) && s.closed <= |s.hist| && InvPhase(cfg, s) && InvThreads(cfg, s) && t < cfg.T
    requires s.pc[t].Pred? && forall k :: 0 <= k < cfg.T && k != t ==> Predicted(s, k) > s.closed
    ensures s.phase.Open?
  {
    if !s.phase.Open? { var k := StandsAtClosed(cfg, s); }
  }

  ghost predicate PredLast(cfg: Config, s: State, s': State, t: nat, j: nat)
    requires Shape(cfg, s) && t < cfg.T && j < cfg.R
  {
    var sl := s.slots[j];
    var partial := sl.partial + InlinePredict(s.weights[t], sl.ex.nss, t);
    var final := Finalize(cfg.lo, cfg.hi, partial);
    && |s'.slots| == cfg.R && s'.slots[j].eta == (if sl.ex.target.Some? then Rate(cfg, sl.ex, final) else sl.eta)
    && var sl' := sl.(partial := partial, toFinish := 0, final := final, eta := s'.slots[j].eta,
                      done := true, lock := Some(t));
    var trains := Trains(cfg, sl.ex);
    s' == s.(slots := s.slots[j := sl'], closed := s.closed + 1,
             phase := if trains then Pushing(t) else Dropping(t),
             pc := s.pc[t := if trains then Push(j) else Drop(j)])
  }

  lemma PredLastStep(cfg: Config, s: State, t: nat, j: nat)
    requires Shape(cfg, s) && AtPred(cfg, s, t, j) && s.slots[j].toFinish == 1
    ensures var r := StepPred(cfg, s, t, j);
      r.Some? && Shape(cfg, r.value) && PredLast(cfg, s, r.value, t, j)
  {
  }

  lemma PredLastThread(cfg: Config, s: State, s': State, t: nat, j: nat, k: nat)
    requires Shape(cfg, s) && Shape(cfg, s') && t < cfg.T && k < cfg.T && j < cfg.R && k != t
    requires s.closed < |s.hist| && s.phase.Open? && PredLast(cfg, s, s', t, j)
    requires s.slots[j].ex == s.hist[s.closed] && InvThread(cfg, s, k) && Predicted(s, k) > s.closed
    ensures InvThread(cfg, s', k) && Predicted(s', k) == Predicted(s, k)
  {
  }

  lemma PredLastSelf(cfg: Config, s: State, s': State, t: nat, j: nat)
    requires Shape(cfg, s) && Shape(cfg, s') && t < cfg.T && j < cfg.R && s.pc[t] == Pred(j)
    requires s.phase.Open? && PredLast(cfg, s, s', t, j) && InvThread(cfg, s, t) && s.used[t] - 1 == s.closed
    ensures InvThread(cfg, s', t)
  {
  }

  lemma PredLastClosed(cfg: Config, s: State, s': State, t: nat, j: nat)
    requires Shape(cfg, s) && Shape(cfg, s') && t < cfg.T && j < cfg.R && s.pc[t] == Pred(j)
    requires s.closed < |s.hist| && j == s.closed % cfg.R
    requires OpenSlot(cfg, s, s.closed) && s.slots[j].toFinish == 1 && PredMask(cfg, s, s.closed)[t]
    requires s.weights[t] == Shard(cfg, s.hist, s.closed, t)
    requires PredLast(cfg, s, s', t, j)
    ensures ClosedSlot(cfg, s')
  {
    var m, d := PredMask(cfg, s, s.closed), Dots(cfg, s.hist, s.closed);
    SumOne(m, d, t);
    CountOne(m, t);
    CountNone(m[t := false]);
    WholePrediction(cfg, s.hist, s.closed, m[t := false]);
  }

  lemma PredLastPhase(cfg: Config, s: State, s': State, t: nat, j: nat)
    requires Shape(cfg, s) && Shape(cfg, s') && t < cfg.T && j < cfg.R
    requires s.closed < |s.hist| && InvPhase(cfg, s) && s.phase.Open? && PredLast(cfg, s, s', t, j)
    requires j == s.closed % cfg.R && s.slots[j].ex == s.hist[s.closed] && ClosedSlot(cfg, s')
    ensures InvPhase(cfg, s')
  {
    assert RingEmpty(cfg, s');
  }

  lemma PredLastThreads(cfg: Config, s: State, s': State, t: nat, j: nat)
    requires Shape(cfg, s) && Shape(cfg, s') && t < cfg.T && j < cfg.R && s.pc[t] == Pred(j)
    requires s.closed < |s.hist| && s.phase.Open? && PredLast(cfg, s, s', t, j)
    requires s.slots[j].ex == s.hist[s.closed] && InvThreads(cfg, s)
    requires s.used[t] == s.closed + 1 && forall k :: 0 <= k < cfg.T && k != t ==> Predicted(s, k) > s.closed
    ensures InvThreads(cfg, s')
  {
    forall k | 0 <= k < cfg.T ensures InvThread(cfg, s', k) {
      assert InvThread(cfg, s, k);
      if k == t { PredLastSelf(cfg, s, s', t, j); } else { PredLastThread(cfg, s, s', t, j, k); }
    }
  }

  lemma PredLastWeights(cfg: Config, s: State, s': State, t: nat, j: nat)
    requires Shape(cfg, s) && Shape(cfg, s') && t < cfg.T && j < cfg.R
    requires s.closed < |s.hist| && s.phase.Open? && PredLast(cfg, s, s', t, j)
    requires s.slots[j].ex == s.hist[s.closed] && InvWeights(cfg, s)
    ensures InvWeights(cfg, s')
  {
    NoTrainingOrPush(cfg, s, s', t, j);
    forall k | 0 <= k < cfg.T ensures s'.weights[k] == Shard(cfg, s.hist, Trained(s', k), k) {
      assert Trained(s, k) == s.closed;
    }
  }

  lemma NoTrainingOrPush(cfg: Config, s: State, s': State, t: nat, j: nat)
    requires Shape(cfg, s) && Shape(cfg, s') && t < cfg.T && j < cfg.R
    requires s.closed < |s.hist| && PredLast(cfg, s, s', t, j) && s.slots[j].ex == s.hist[s.closed]
    ensures !s'.phase.Pushing? ==> After(cfg, s.hist, s.closed + 1) == After(cfg, s.hist, s.closed)
  {
  }

  lemma PredLastOpen(cfg: Config, s: State, s': State, t: nat, j: nat)
    requires Shape(cfg, s) && Shape(cfg, s') && t < cfg.T && j < cfg.R && s.pc[t] == Pred(j) && s.phase.Open?
    requires s.closed < |s.hist| && InvWindow(cfg, s) && InvOpen(cfg, s) && PredLast(cfg, s, s', t, j)
    requires j == s.closed % cfg.R && s.used[t] == s.closed + 1
    ensures InvOpen(cfg, s') && InvWindow(cfg, s')
  {
    PredMasks(cfg, s, s', t);
    OpenApart(cfg, s, s.closed);
    OpenFrame(cfg, s, s', s.closed + 1);
    assert forall e :: InUseAt(cfg, s', e) == InUseAt(cfg, s, e);
  }

  lemma PredLastOut(cfg: Config, s: State, s': State, t: nat, j: nat)
    requires Shape(cfg, s) && t < cfg.T && j < cfg.R && PredLast(cfg, s, s', t, j) && InvOut(cfg, s) && s.phase.Open?
    ensures InvOut(cfg, s') && s'.hist == s.hist && s'.closed == s.closed + 1
  {
  }

  lemma PredLastLocks(cfg: Config, s: State, s': State, t: nat, j: nat)
    requires Shape(cfg, s) && Shape(cfg, s') && t < cfg.T && j < cfg.R && PredLast(cfg, s, s', t, j)
    requires s.pc[t] == Pred(j) && s.slots[j].lock.None? && InvLocks(cfg, s)
    ensures InvLocks(cfg, s')
  {
    hide InlinePredict, Finalize, Rate, Trains;
    LocksKeep(cfg, s, s', t, j);
  }

  /** The last partial prediction completes the example. */
  lemma PredKeepsLast(cfg: Config, s: State, t: nat, j: nat)
    requires Inv(cfg, s) && AtPred(cfg, s, t, j) && s.slots[j].toFinish == 1
    ensures Inv(cfg, StepPred(cfg, s, t, j).value)
  {
    Unpack(cfg, s, t);
    assert s.pc[t] == Pred(j) && s.slots[j].lock.None?;
    PredSlot(cfg, s, t, j);
    LastIsFirstOpen(cfg, s, t, j);
    assert s.slots[j].ex == s.hist[s.closed];
    hide *;
    PredLastStep(cfg, s, t, j);
    var s' := StepPred(cfg, s, t, j).value;
    LastMeansOpen(cfg, s, t);
    PredSlice(cfg, s, t);
    PredLastClosed(cfg, s, s', t, j);
    PredLastPhase(cfg, s, s', t, j);
    PredLastThreads(cfg, s, s', t, j);
    PredLastWeights(cfg, s, s', t, j);
    PredLastOpen(cfg, s, s', t, j);
    PredLastLocks(cfg, s, s', t, j);
    PredLastOut(cfg, s, s', t, j);
    Collect(cfg, s');
  }

  // ------------------------------------------------------------ the parser

  /** The parser changed only its own slot (the one after the published examples) and its own state. */
  ghost predicate ParserFrame(cfg: Config, s: State, s': State)
    requires Shape(cfg, s) && Shape(cfg, s')
  {
    var j := |s.hist| % cfg.R;
    && s' == s.(slots := s.slots[j := s'.slots[j]], parser := s'.parser, finished := s'.finished, signals := s'.signals)
    && s'.slots[j].lock == s.slots[j].lock
    && (s.finished ==> s'.finished)
    && s'.signals >= s.signals
    && (s'.signals == s.signals && s'.finished ==> s'.parser.Release? || (s.finished && !s.parser.Release?))
  }

  predicate OnlyInUse(cfg: Config, s: State, s': State)
    requires Shape(cfg, s) && Shape(cfg, s')
  {
    var j := |s.hist| % cfg.R;
    s'.slots[j] == s.slots[j].(inUse := s'.slots[j].inUse)
  }

  /** Learner threads do not notice a parser step inside its own slot. */
  lemma ParserThreads(cfg: Config, s: State, s': State)
    requires Shape(cfg, s) && Shape(cfg, s') && ParserFrame(cfg, s, s') && InvThreads(cfg, s)
    ensures InvThreads(cfg, s') && UseMask(cfg, s') == UseMask(cfg, s) && FinMask(cfg, s') == FinMask(cfg, s)
    ensures forall e: nat :: PredMask(cfg, s', e) == PredMask(cfg, s, e)
    ensures forall k :: 0 <= k < cfg.T ==> Trained(s', k) == Trained(s, k)
  {
    forall k | 0 <= k < cfg.T ensures InvThread(cfg, s', k) { assert InvThread(cfg, s, k); }
    assert UseMask(cfg, s') == UseMask(cfg, s);
    assert FinMask(cfg, s') == FinMask(cfg, s);
    forall e: nat ensures PredMask(cfg, s', e) == PredMask(cfg, s, e) {}
  }

  lemma ParserPhase(cfg: Config, s: State, s': State)
    requires Shape(cfg, s) && s.closed <= |s.hist| && InvPhase(cfg, s)
    requires Shape(cfg, s') && ParserFrame(cfg, s, s')
    requires !s.phase.Open? ==> |s.hist| % cfg.R != (s.closed - 1) % cfg.R || OnlyInUse(cfg, s, s')
    requires UseMask(cfg, s') == UseMask(cfg, s) && FinMask(cfg, s') == FinMask(cfg, s)
    ensures InvPhase(cfg, s')
  {
    assert RingEmpty(cfg, s') == RingEmpty(cfg, s);
    if s.phase.Training? {
      assert InvTraining(cfg, s');
    }
  }

  lemma ParserOpen(cfg: Config, s: State, s': State)
    requires Shape(cfg, s) && InvOpen(cfg, s) && Shape(cfg, s') && ParserFrame(cfg, s, s')
    requires forall e :: s.closed <= e < |s.hist| ==> SameOpenFields(s'.slots[e % cfg.R], s.slots[e % cfg.R])
    requires forall e: nat :: PredMask(cfg, s', e) == PredMask(cfg, s, e)
    requires Prepared(cfg, s')
    ensures InvOpen(cfg, s')
  {
    forall e | s.closed <= e < |s.hist| ensures OpenSlot(cfg, s', e) {
      assert OpenSlot(cfg, s, e);
      OpenSlotFrame(cfg, s, s', e);
    }
  }

  /** Everything but the window after a parser step. */
  lemma ParserOut(cfg: Config, s: State, s': State)
    requires Shape(cfg, s) && Shape(cfg, s') && ParserFrame(cfg, s, s') && InvOut(cfg, s) && InvLocks(cfg, s)
    requires s.closed <= |s.hist| && InvWeights(cfg, s)
    requires forall k :: 0 <= k < cfg.T ==> Trained(s', k) == Trained(s, k)
    ensures InvOut(cfg, s') && InvLocks(cfg, s') && InvWeights(cfg, s') && s'.hist == s.hist && s'.closed == s.closed
  {
    hide Trained, Prediction, Shard;
  }

  /** The slot the parser holds is nobody's. */
  lemma ParserApart(cfg: Config, s: State, s': State)
    requires Shape(cfg, s) && Shape(cfg, s') && InvWindow(cfg, s) && ParserFrame(cfg, s, s')
    requires Holding(s) || OnlyInUse(cfg, s, s')
    ensures !s.phase.Open? ==> |s.hist| % cfg.R != (s.closed - 1) % cfg.R || OnlyInUse(cfg, s, s')
    ensures forall e :: s.closed <= e < |s.hist| ==> SameOpenFields(s'.slots[e % cfg.R], s.slots[e % cfg.R])
  {
    if Holding(s) { OpenApart(cfg, s, |s.hist|); }
    if Holding(s) && !s.phase.Open? { LatestApart(cfg, s); }
  }

  /** Assembling a parser step. */
  lemma ParserMove(cfg: Config, s: State, s': State)
    requires Inv(cfg, s) && Shape(cfg, s') && ParserFrame(cfg, s, s') && InvWindow(cfg, s')
    requires (Holding(s) || OnlyInUse(cfg, s, s')) && Prepared(cfg, s')
    ensures Inv(cfg, s')
  {
    Unpack(cfg, s, 0);
    hide *;
    ParserThreads(cfg, s, s');
    ParserApart(cfg, s, s');
    ParserOpen(cfg, s, s');
    ParserPhase(cfg, s, s');
    ParserOut(cfg, s, s');
    Collect(cfg, s');
  }

  /** The parser's program counter moved, and perhaps the flag; no slot did. */
  lemma PlainWindow(cfg: Config, s: State, s': State)
    requires Shape(cfg, s) && Shape(cfg, s') && InvWindow(cfg, s)
    requires s' == s.(slots := s'.slots, parser := s'.parser, finished := s'.finished)
    requires forall i :: 0 <= i < cfg.R ==> s'.slots[i].inUse == s.slots[i].inUse
    requires Holding(s') == Holding(s) && (s'.finished ==> s'.parser.Release? || s'.parser.Top? || s'.parser.Stopped?)
    requires s'.parser.Stopped? ==> s'.finished
    ensures InvWindow(cfg, s')
  {
    assert forall e :: InUseAt(cfg, s', e) == InUseAt(cfg, s, e);
  }

  lemma TopStep(cfg: Config, s: State, choice: Choice)
    requires Shape(cfg, s) && s.parser.Top?
    ensures ParserStep(cfg, s, choice) == Some(s.(parser := if s.finished then Stopped else Get))
    ensures var s' := ParserStep(cfg, s, choice).value;
      Shape(cfg, s') && ParserFrame(cfg, s, s') && OnlyInUse(cfg, s, s') && Prepared(cfg, s')
  {
  }

  lemma TopKeeps(cfg: Config, s: State, choice: Choice)
    requires Inv(cfg, s) && s.parser.Top?
    ensures Inv(cfg, ParserStep(cfg, s, choice).value)
  {
    Unpack(cfg, s, 0);
    TopStep(cfg, s, choice);
    hide *;
    var s' := ParserStep(cfg, s, choice).value;
    PlainWindow(cfg, s, s');
    ParserMove(cfg, s, s');
  }

  /** The parser takes a slot only when fewer than `R` examples are live, and it is nobody's slot. */
  lemma GetWindow(cfg: Config, s: State, s': State)
    requires Shape(cfg, s) && InvWindow(cfg, s) && s.parser.Get?
    requires ParserStep(cfg, s, EndOfPass(false)) == Some(s') && Shape(cfg, s')
    ensures InvWindow(cfg, s')
  {
    var N := |s.hist|;
    if N >= cfg.R { ModAround(N - cfg.R, cfg.R); }
    assert InUseAt(cfg, s, Low(s)) <==> Low(s) < High(s);
    forall e {:trigger InUseAt(cfg, s', e)} | Low(s) <= e < Low(s) + cfg.R
      ensures InUseAt(cfg, s', e) <==> e < High(s')
    {
      if e < N {
        ModApart(e, N, cfg.R);
        assert InUseAt(cfg, s', e) == InUseAt(cfg, s, e);
      } else if e > N {
        ModApart(N, e, cfg.R);
        assert InUseAt(cfg, s', e) == InUseAt(cfg, s, e);
      }
    }
  }

  lemma GetStep(cfg: Config, s: State, choice: Choice)
    requires Shape(cfg, s) && s.parser.Get? && s.parsed == |s.hist| && ParserStep(cfg, s, choice).Some? && !s.finished
    ensures ParserStep(cfg, s, EndOfPass(false)) == ParserStep(cfg, s, choice)
    ensures var s' := ParserStep(cfg, s, choice).value;
      Shape(cfg, s') && ParserFrame(cfg, s, s') && OnlyInUse(cfg, s, s') && Prepared(cfg, s')
  {
  }

  lemma GetKeeps(cfg: Config, s: State, choice: Choice)
    requires Inv(cfg, s) && s.parser.Get? && ParserStep(cfg, s, choice).Some?
    ensures Inv(cfg, ParserStep(cfg, s, choice).value)
  {
    Unpack(cfg, s, 0);
    assert !s.finished;
    hide *;
    GetStep(cfg, s, choice);
    var s' := ParserStep(cfg, s, choice).value;
    GetWindow(cfg, s, s');
    ParserMove(cfg, s, s');
  }

  lemma ParseStep(cfg: Config, s: State, choice: Choice)
    requires Shape(cfg, s) && s.parser.Parse? && s.parsed == |s.hist| && !s.finished
    ensures var r := ParserStep(cfg, s, choice);
      && r.Some? && Shape(cfg, r.value) && ParserFrame(cfg, s, r.value) && Holding(s) && Holding(r.value)
      && Prepared(cfg, r.value) && !r.value.finished
      && r.value == s.(slots := r.value.slots, parser := r.value.parser)
      && !r.value.parser.Stopped?
      && forall i :: 0 <= i < cfg.R ==> r.value.slots[i].inUse == s.slots[i].inUse
  {
  }

  /** Filling the slot, with whatever example the input holds. */
  lemma ParseKeeps(cfg: Config, s: State, choice: Choice)
    requires Inv(cfg, s) && s.parser.Parse?
    ensures ParserStep(cfg, s, choice).Some? && Inv(cfg, ParserStep(cfg, s, choice).value)
  {
    Unpack(cfg, s, 0);
    assert !s.finished;
    hide *;
    ParseStep(cfg, s, choice);
    var s' := ParserStep(cfg, s, choice).value;
    PlainWindow(cfg, s, s');
    ParserMove(cfg, s, s');
  }

  lemma EndPassStep(cfg: Config, s: State, choice: Choice)
    requires Shape(cfg, s) && s.parser.EndPass? && !s.finished
    ensures var s' := ParserStep(cfg, s, choice).value;
      && Shape(cfg, s') && ParserFrame(cfg, s, s') && OnlyInUse(cfg, s, s') && Prepared(cfg, s')
      && s' == s.(finished := s'.finished, parser := Release) && Holding(s) && Holding(s')
  {
  }

  lemma EndPassKeeps(cfg: Config, s: State, choice: Choice)
    requires Inv(cfg, s) && s.parser.EndPass?
    ensures Inv(cfg, ParserStep(cfg, s, choice).value)
  {
    Unpack(cfg, s, 0);
    assert !s.finished;
    hide *;
    EndPassStep(cfg, s, choice);
    var s' := ParserStep(cfg, s, choice).value;
    PlainWindow(cfg, s, s');
    ParserMove(cfg, s, s');
  }

  lemma ReleaseWindow(cfg: Config, s: State, s': State)
    requires Shape(cfg, s) && InvWindow(cfg, s) && s.parser.Release?
    requires ParserStep(cfg, s, EndOfPass(false)) == Some(s') && Shape(cfg, s')
    ensures InvWindow(cfg, s')
  {
    var N := |s.hist|;
    forall e {:trigger InUseAt(cfg, s', e)} | Low(s) <= e < Low(s) + cfg.R
      ensures InUseAt(cfg, s', e) <==> e < High(s')
    {
      if e < N {
        ModApart(e, N, cfg.R);
        assert InUseAt(cfg, s', e) == InUseAt(cfg, s, e);
      } else if e > N {
        ModApart(N, e, cfg.R);
        assert InUseAt(cfg, s', e) == InUseAt(cfg, s, e);
      }
    }
  }

  lemma ReleaseStep(cfg: Config, s: State, choice: Choice)
    requires Shape(cfg, s) && s.parser.Release? && s.parsed == |s.hist|
    ensures ParserStep(cfg, s, EndOfPass(false)) == ParserStep(cfg, s, choice)
    ensures var s' := ParserStep(cfg, s, choice).value;
      && Shape(cfg, s') && ParserFrame(cfg, s, s') && OnlyInUse(cfg, s, s') && Prepared(cfg, s')
      && ParserStep(cfg, s, choice).Some?
  {
  }

  lemma ReleaseParserKeeps(cfg: Config, s: State, choice: Choice)
    requires Inv(cfg, s) && s.parser.Release?
    ensures Inv(cfg, ParserStep(cfg, s, choice).value)
  {
    Unpack(cfg, s, 0);
    hide *;
    ReleaseStep(cfg, s, choice);
    var s' := ParserStep(cfg, s, choice).value;
    ReleaseWindow(cfg, s, s');
    ParserMove(cfg, s, s');
  }

  // ------------------------------------------------------------ publishing

  /** The step that publishes the example in the parser's slot. */
  ghost predicate Published(cfg: Config, s: State, s': State)
    requires Shape(cfg, s)
  {
    s' == s.(parsed := s.parsed + 1, hist := s.hist + [s.slots[|s.hist| % cfg.R].ex], parser := Top,
             signals := s.signals + 1)
  }

  lemma PublishHistory(cfg: Config, hist: seq<Example>, ex: Example)
    ensures forall e: nat :: e <= |hist| ==> After(cfg, hist + [ex], e) == After(cfg, hist, e)
    ensures forall e: nat :: e <= |hist| ==> TrainCount(cfg, hist + [ex], e) == TrainCount(cfg, hist, e)
  {
    forall e: nat | e <= |hist|
      ensures After(cfg, hist + [ex], e) == After(cfg, hist, e)
      ensures TrainCount(cfg, hist + [ex], e) == TrainCount(cfg, hist, e)
    {
      AfterExtends(cfg, hist, ex, e);
    }
  }

  lemma PublishDots(cfg: Config, hist: seq<Example>, ex: Example, e: nat)
    requires e < |hist|
    ensures Dots(cfg, hist + [ex], e) == Dots(cfg, hist, e)
    ensures Prediction(cfg, hist + [ex], e) == Prediction(cfg, hist, e)
  {
    AfterExtends(cfg, hist, ex, e);
  }

  lemma PublishOpen(cfg: Config, s: State, s': State)
    requires Shape(cfg, s) && InvOpen(cfg, s) && Shape(cfg, s') && s.parser.Publish?
    requires s.closed <= |s.hist| && InvThreads(cfg, s)
    requires Published(cfg, s, s')
    ensures InvOpen(cfg, s')
  {
    var N := |s.hist|;
    forall e: nat ensures PredMask(cfg, s', e) == PredMask(cfg, s, e) {}
    forall e | s.closed <= e < N ensures OpenSlot(cfg, s', e) {
      assert OpenSlot(cfg, s, e);
      PublishDots(cfg, s.hist, s.slots[N % cfg.R].ex, e);
    }
    var m := PredMask(cfg, s', N);
    forall t | 0 <= t < cfg.T ensures m[t] { assert InvThread(cfg, s, t); }
    CountAll(m);
    SumNobody(m, Dots(cfg, s'.hist, N));
    assert OpenSlot(cfg, s', N);
  }

  lemma PublishThreads(cfg: Config, s: State, s': State)
    requires Shape(cfg, s) && Shape(cfg, s') && s.parser.Publish? && !s.finished
    requires InvThreads(cfg, s) && s.closed <= |s.hist|
    requires Published(cfg, s, s')
    ensures InvThreads(cfg, s') && UseMask(cfg, s') == UseMask(cfg, s) && FinMask(cfg, s') == FinMask(cfg, s)
    ensures forall k :: 0 <= k < cfg.T ==> Trained(s', k) == Trained(s, k)
  {
    forall k | 0 <= k < cfg.T ensures InvThread(cfg, s', k) { assert InvThread(cfg, s, k); }
    assert UseMask(cfg, s') == UseMask(cfg, s);
    assert FinMask(cfg, s') == FinMask(cfg, s);
  }

  lemma PublishPhase(cfg: Config, s: State, s': State)
    requires Shape(cfg, s) && Shape(cfg, s') && s.closed <= |s.hist| && InvPhase(cfg, s)
    requires Published(cfg, s, s')
    requires UseMask(cfg, s') == UseMask(cfg, s) && FinMask(cfg, s') == FinMask(cfg, s)
    ensures InvPhase(cfg, s')
  {
    PublishHistory(cfg, s.hist, s.slots[|s.hist| % cfg.R].ex);
    assert RingEmpty(cfg, s') == RingEmpty(cfg, s);
    assert !s.phase.Open? ==> ClosedSlot(cfg, s');
    if s.phase.Training? {
      assert InvTraining(cfg, s');
    }
  }

  lemma PublishOut(cfg: Config, s: State, s': State)
    requires Shape(cfg, s) && Shape(cfg, s') && s.parser.Publish? && s.closed <= |s.hist|
    requires InvOut(cfg, s) && InvWeights(cfg, s) && InvWindow(cfg, s)
    requires Published(cfg, s, s')
    requires forall k :: 0 <= k < cfg.T ==> Trained(s', k) == Trained(s, k)
    ensures InvOut(cfg, s') && InvWeights(cfg, s') && InvWindow(cfg, s')
  {
    var ex := s.slots[|s.hist| % cfg.R].ex;
    PublishHistory(cfg, s.hist, ex);
    forall e | 0 <= e < |s'.out| ensures s'.out[e] == Prediction(cfg, s'.hist, e) { PublishDots(cfg, s.hist, ex, e); }
    assert forall e :: InUseAt(cfg, s', e) == InUseAt(cfg, s, e);
  }

  lemma PublishStep(cfg: Config, s: State, choice: Choice)
    requires Shape(cfg, s) && s.parser.Publish? && s.parsed == |s.hist|
    ensures var r := ParserStep(cfg, s, choice); r.Some? && Shape(cfg, r.value) && Published(cfg, s, r.value)
    ensures |ParserStep(cfg, s, choice).value.hist| == |s.hist| + 1
    ensures ParserStep(cfg, s, choice).value.closed == s.closed
  {
  }

  lemma PublishKeeps(cfg: Config, s: State, choice: Choice)
    requires Inv(cfg, s) && s.parser.Publish?
    ensures Inv(cfg, ParserStep(cfg, s, choice).value)
  {
    Unpack(cfg, s, 0);
    assert !s.finished;
    hide *;
    PublishStep(cfg, s, choice);
    var s' := ParserStep(cfg, s, choice).value;
    PublishThreads(cfg, s, s');
    PublishOpen(cfg, s, s');
    PublishPhase(cfg, s, s');
    PublishOut(cfg, s, s');
    PublishLocks(cfg, s, s');
    Collect(cfg, s');
  }

  lemma PublishLocks(cfg: Config, s: State, s': State)
    requires Shape(cfg, s) && Shape(cfg, s') && Published(cfg, s, s') && InvLocks(cfg, s)
    ensures InvLocks(cfg, s')
  {
  }

  // ------------------------------------------------------------ any step

  lemma ThreadStepKeeps(cfg: Config, s: State, t: nat)
    requires Inv(cfg, s) && t < cfg.T && ThreadStep(cfg, s, t).Some?
    ensures Inv(cfg, ThreadStep(cfg, s, t).value)
  {
    assert SlotOk(cfg, s.pc[t]);
    match s.pc[t]
    case Head => HeadKeeps(cfg, s, t);
    case Ret1 => Ret1Keeps(cfg, s, t);
    case Ret2(i, j) => Ret2Keeps(cfg, s, t, i, j);
    case Ret3(i, j) => Ret3Keeps(cfg, s, t, i, j);
    case Ret4(i, j) => Ret4Keeps(cfg, s, t, i, j);
    case Train(j) => TrainKeeps(cfg, s, t, j);
    case Fin(j) => if s.slots[j].toFinish == 1 { FinKeepsLast(cfg, s, t, j); } else { FinKeepsMore(cfg, s, t, j); }
    case Free(j) => FreeKeeps(cfg, s, t, j);
    case Fetch => FetchKeeps(cfg, s, t);
    case Asleep(_) => AsleepKeeps(cfg, s, t);
    case Scan(i) => ScanKeeps(cfg, s, t, i);
    case Pred(j) => if s.slots[j].toFinish == 1 { PredKeepsLast(cfg, s, t, j); } else { PredKeepsMore(cfg, s, t, j); }
    case Wait(j) => WaitKeeps(cfg, s, t, j);
    case Push(j) => PushKeeps(cfg, s, t, j);
    case Drop(j) => DropKeeps(cfg, s, t, j);
    case Unlock(j) => UnlockKeeps(cfg, s, t, j);
  }

  lemma ParserStepKeeps(cfg: Config, s: State, choice: Choice)
    requires Inv(cfg, s) && ParserStep(cfg, s, choice).Some?
    ensures Inv(cfg, ParserStep(cfg, s, choice).value)
  {
    match s.parser
    case Top => TopKeeps(cfg, s, choice);
    case Get => GetKeeps(cfg, s, choice);
    case Parse => ParseKeeps(cfg, s, choice);
    case Publish => PublishKeeps(cfg, s, choice);
    case EndPass => EndPassKeeps(cfg, s, choice);
    case Release => ReleaseParserKeeps(cfg, s, choice);
  }

  lemma StepKeeps(cfg: Config, s: State, ev: Event)
    requires Inv(cfg, s) && Step(cfg, s, ev).Some?
    ensures Inv(cfg, Step(cfg, s, ev).value)
  {
    match ev
    case ByThread(t) => ThreadStepKeeps(cfg, s, t);
    case ByParser(choice) => ParserStepKeeps(cfg, s, choice);
    case Spurious(t) => AsleepKeeps(cfg, s, t);
  }
}
