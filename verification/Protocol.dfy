/** The multithreaded learner in local mode as a state machine: one step per lock-protected section
    (src/parser.cc, src/delay_ring.cc, src/gd.cc). A step that returns `None` is blocked. */
module Protocol {
  import opened Basics
  import opened Partition
  import opened Learner
  import opened Shards

  /** The fields of `example` the protocol reads and writes; `lock` holds the owner of `ex->lock`. */
  datatype Slot = Slot(inUse: bool, ex: Example, partial: real, final: real, eta: real,
                       toFinish: int, done: bool, lock: Option<nat>)

  /** Where a learner thread stands in `gd_thread` and the functions it calls. */
  datatype Pc =
    | Head                       // top of the loop, about to call get_delay_example
    | Ret1                       // return_example: about to read delay_ring[index]
    | Ret2(index: nat, slot: nat) // about to advance delay_indices[thread]
    | Ret3(index: nat, slot: nat) // about to lock ret->lock and decrement threads_to_use
    | Ret4(index: nat, slot: nat) // holds ret->lock, about to clear delay_ring[index]
    | Train(slot: nat)           // inline_train
    | Fin(slot: nat)             // finish_example: about to decrement threads_to_finish
    | Free(slot: nat)            // last finisher: output and free_example
    | Fetch                      // get_example
    | Asleep(at: nat)            // waits on example_available, last broadcast heard is number `at`
    | Scan(i: nat)               // thread_done: unlocked scan of used_index, then delay_indices
    | Pred(slot: nat)            // predict, before ex->lock
    | Wait(slot: nat)            // waiting on finished_sum
    | Push(slot: nat)            // holds ex->lock, in delay_example with count > 0
    | Drop(slot: nat)            // holds ex->lock, in delay_example with count == 0
    | Unlock(slot: nat)          // about to release ex->lock
    | Exited

  datatype ParserPc = Top | Get | Parse | Publish | EndPass | Release | Stopped

  /** Progress of the most recently closed example; history, never read by a step. */
  datatype Phase = Open | Dropping(d: nat) | Pushing(p: nat) | Training | Freeing(f: nat)

  datatype State = State(
    slots: seq<Slot>,            // the ring of examples
    parsed: nat,                 // global.parsed_examples
    used: seq<nat>,              // used_index
    finished: bool,              // done
    signals: nat,                // broadcasts on example_available so far
    ring: seq<Option<nat>>,      // delay_ring
    toUse: seq<int>,             // threads_to_use
    local: nat,                  // local_index
    didx: seq<nat>,              // delay_indices
    weights: seq<seq<real>>,     // reg.weight_vectors
    pc: seq<Pc>,
    parser: ParserPc,
    // history variables
    hist: seq<Example>,          // every published example
    closed: nat,                 // how many examples have been predicted by all threads
    phase: Phase,
    out: seq<real>)              // final predictions in the order they are output

  predicate SlotOk(cfg: Config, pc: Pc) {
    match pc
    case Ret2(i, j) => i < cfg.R && j < cfg.R
    case Ret3(i, j) => i < cfg.R && j < cfg.R
    case Ret4(i, j) => i < cfg.R && j < cfg.R
    case Train(j) => j < cfg.R
    case Fin(j) => j < cfg.R
    case Free(j) => j < cfg.R
    case Pred(j) => j < cfg.R
    case Wait(j) => j < cfg.R
    case Push(j) => j < cfg.R
    case Drop(j) => j < cfg.R
    case Unlock(j) => j < cfg.R
    case Scan(i) => i <= cfg.T + 1
    case _ => true
  }

  /** Array lengths and index ranges. */
  predicate Shape(cfg: Config, s: State) {
    && |s.slots| == |s.ring| == |s.toUse| == cfg.R
    && |s.used| == |s.didx| == |s.weights| == |s.pc| == cfg.T
    && (forall t :: 0 <= t < cfg.T ==> |s.weights[t]| == cfg.E)
    && (forall t :: 0 <= t < cfg.T ==> SlotOk(cfg, s.pc[t]))
    && (forall i :: 0 <= i < cfg.R && s.ring[i].Some? ==> s.ring[i].value < cfg.R)
  }

  function Goto(s: State, t: nat, pc: Pc): State
    requires t < |s.pc|
  {
    s.(pc := s.pc[t := pc])
  }

  // ------------------------------------------------------------ get_delay_example

  function StepHead(cfg: Config, s: State, t: nat): State
    requires Shape(cfg, s) && t < cfg.T
  {
    Goto(s, t, if s.didx[t] != s.local then Ret1 else Fetch)
  }

  function StepRet1(cfg: Config, s: State, t: nat): Option<State>
    requires Shape(cfg, s) && t < cfg.T
  {
    var index := s.didx[t] % cfg.R;
    match s.ring[index]
    case None => None                                // a null pointer would be dereferenced
    case Some(slot) => Some(Goto(s, t, Ret2(index, slot)))
  }

  function StepRet2(cfg: Config, s: State, t: nat, index: nat, slot: nat): State
    requires Shape(cfg, s) && t < cfg.T
  {
    Goto(s.(didx := s.didx[t := s.didx[t] + 1]), t, Ret3(index, slot))
  }

  function StepRet3(cfg: Config, s: State, t: nat, index: nat, slot: nat): Option<State>
    requires Shape(cfg, s) && t < cfg.T && index < cfg.R && slot < cfg.R
  {
    if s.slots[slot].lock.Some? then None
    else
      var left := s.toUse[index] - 1;
      var s1 := s.(toUse := s.toUse[index := left]);
      if left == 0 then
        Some(Goto(s1.(slots := s.slots[slot := s.slots[slot].(lock := Some(t))]), t, Ret4(index, slot)))
      else Some(Goto(s1, t, Train(slot)))
  }

  function StepRet4(cfg: Config, s: State, t: nat, index: nat, slot: nat): State
    requires Shape(cfg, s) && t < cfg.T && index < cfg.R && slot < cfg.R
  {
    Goto(s.(ring := s.ring[index := None], slots := s.slots[slot := s.slots[slot].(lock := None)]), t, Train(slot))
  }

  function StepTrain(cfg: Config, s: State, t: nat, slot: nat): State
    requires Shape(cfg, s) && t < cfg.T && slot < cfg.R
  {
    var sl := s.slots[slot];
    Goto(s.(weights := s.weights[t := InlineTrain(s.weights[t], sl.ex.nss, t, sl.eta)]), t, Fin(slot))
  }

  // ------------------------------------------------------------ finish_example

  function StepFin(cfg: Config, s: State, t: nat, slot: nat): Option<State>
    requires Shape(cfg, s) && t < cfg.T && slot < cfg.R
  {
    var sl := s.slots[slot];
    if sl.lock.Some? then None
    else
      var left := sl.toFinish - 1;
      var s1 := s.(slots := s.slots[slot := sl.(toFinish := left)]);
      if left == 0 then Some(Goto(s1.(phase := Freeing(t)), t, Free(slot)))
      else Some(Goto(s1, t, Head))
  }

  /** `output_and_account_example` followed by `free_example`, which broadcasts when `done` is set. */
  function Release1(s: State, slot: nat): State
    requires slot < |s.slots|
  {
    s.(slots := s.slots[slot := s.slots[slot].(inUse := false)],
       out := s.out + [s.slots[slot].final], phase := Open,
       signals := if s.finished then s.signals + 1 else s.signals)
  }

  function StepFree(cfg: Config, s: State, t: nat, slot: nat): State
    requires Shape(cfg, s) && t < cfg.T && slot < cfg.R
  {
    Goto(Release1(s, slot), t, Head)
  }

  // ------------------------------------------------------------ get_example and predict

  function StepFetch(cfg: Config, s: State, t: nat): State
    requires Shape(cfg, s) && t < cfg.T
  {
    if s.parsed != s.used[t] then
      Goto(s.(used := s.used[t := s.used[t] + 1]), t, Pred(s.used[t] % cfg.R))
    else if s.finished then Goto(s, t, Scan(0))
    else Goto(s, t, Asleep(s.signals))
  }

  /** `get_example` waits once and returns nothing, whatever woke it. */
  function StepAsleep(cfg: Config, s: State, t: nat, at: nat): Option<State>
    requires Shape(cfg, s) && t < cfg.T
  {
    if s.signals > at then Some(Goto(s, t, Scan(0))) else None
  }

  function StepPred(cfg: Config, s: State, t: nat, slot: nat): Option<State>
    requires Shape(cfg, s) && t < cfg.T && slot < cfg.R
  {
    var sl := s.slots[slot];
    if sl.lock.Some? then None
    else
      var partial := sl.partial + InlinePredict(s.weights[t], sl.ex.nss, t);
      var left := sl.toFinish - 1;
      if left == 0 then
        var final := Finalize(cfg.lo, cfg.hi, partial);
        var eta := if sl.ex.target.Some? then Rate(cfg, sl.ex, final) else sl.eta;
        var sl1 := sl.(partial := partial, toFinish := left, final := final, eta := eta, done := true, lock := Some(t));
        var s1 := s.(slots := s.slots[slot := sl1], closed := s.closed + 1);
        if Trains(cfg, sl.ex) then Some(Goto(s1.(phase := Pushing(t)), t, Push(slot)))
        else Some(Goto(s1.(phase := Dropping(t)), t, Drop(slot)))
      else
        var s1 := s.(slots := s.slots[slot := sl.(partial := partial, toFinish := left)]);
        Some(Goto(s1, t, if Trains(cfg, sl.ex) then Wait(slot) else Head))
  }

  function StepWait(cfg: Config, s: State, t: nat, slot: nat): Option<State>
    requires Shape(cfg, s) && t < cfg.T && slot < cfg.R
  {
    if s.slots[slot].lock.None? && s.slots[slot].done then Some(Goto(s, t, Head)) else None
  }

  // ------------------------------------------------------------ delay_example

  function StepPush(cfg: Config, s: State, t: nat, slot: nat): Option<State>
    requires Shape(cfg, s) && t < cfg.T && slot < cfg.R
  {
    var index := s.local % cfg.R;
    if s.ring[index].Some? then None                 // waits on delay_empty
    else
      Some(Goto(s.(ring := s.ring[index := Some(slot)], toUse := s.toUse[index := cfg.T],
                   slots := s.slots[slot := s.slots[slot].(toFinish := cfg.T, lock := None)],
                   local := s.local + 1, phase := Training), t, Head))
  }

  function StepDrop(cfg: Config, s: State, t: nat, slot: nat): State
    requires Shape(cfg, s) && t < cfg.T && slot < cfg.R
  {
    Goto(Release1(s, slot), t, Unlock(slot))
  }

  function StepUnlock(cfg: Config, s: State, t: nat, slot: nat): State
    requires Shape(cfg, s) && t < cfg.T && slot < cfg.R
  {
    Goto(s.(slots := s.slots[slot := s.slots[slot].(lock := None)]), t, Head)
  }

  // ------------------------------------------------------------ thread_done

  /** `Scan(0)` reads `done`, `Scan(i)` reads `used_index[i-1]`, `Scan(T+1)` compares `delay_indices`. */
  function StepScan(cfg: Config, s: State, t: nat, i: nat): State
    requires Shape(cfg, s) && t < cfg.T && i <= cfg.T + 1
  {
    if i == 0 then Goto(s, t, if s.finished then Scan(1) else Head)
    else if i <= cfg.T then Goto(s, t, if s.used[i - 1] == s.parsed then Scan(i + 1) else Head)
    else Goto(s, t, if s.didx[t] == s.local then Exited else Head)
  }

  function ThreadStep(cfg: Config, s: State, t: nat): Option<State>
    requires Shape(cfg, s) && t < cfg.T
  {
    match s.pc[t]
    case Head => Some(StepHead(cfg, s, t))
    case Ret1 => StepRet1(cfg, s, t)
    case Ret2(i, j) => Some(StepRet2(cfg, s, t, i, j))
    case Ret3(i, j) => StepRet3(cfg, s, t, i, j)
    case Ret4(i, j) => Some(StepRet4(cfg, s, t, i, j))
    case Train(j) => Some(StepTrain(cfg, s, t, j))
    case Fin(j) => StepFin(cfg, s, t, j)
    case Free(j) => Some(StepFree(cfg, s, t, j))
    case Fetch => Some(StepFetch(cfg, s, t))
    case Asleep(at) => StepAsleep(cfg, s, t, at)
    case Scan(i) => Some(StepScan(cfg, s, t, i))
    case Pred(j) => StepPred(cfg, s, t, j)
    case Wait(j) => StepWait(cfg, s, t, j)
    case Push(j) => StepPush(cfg, s, t, j)
    case Drop(j) => Some(StepDrop(cfg, s, t, j))
    case Unlock(j) => Some(StepUnlock(cfg, s, t, j))
    case Exited => None
  }

  // ------------------------------------------------------------ main_parse_loop

  /** What the parser meets next: any example, or the end of a pass, possibly the last one. */
  datatype Choice = Read(ex: Example) | EndOfPass(last: bool)

  function ParserStep(cfg: Config, s: State, choice: Choice): Option<State>
    requires Shape(cfg, s)
  {
    var slot := s.parsed % cfg.R;
    match s.parser
    case Top => Some(s.(parser := if s.finished then Stopped else Get))
    case Get =>
      if s.slots[slot].inUse then None                // waits on example_unused
      else Some(s.(slots := s.slots[slot := s.slots[slot].(inUse := true)], parser := Parse))
    case Parse =>
      (match choice
       case Read(ex) =>
         Some(s.(slots := s.slots[slot := s.slots[slot].(ex := ex, partial := 0.0, toFinish := cfg.T, done := false)],
                 parser := Publish))
       case EndOfPass(_) => Some(s.(parser := EndPass)))
    case Publish => Some(s.(parsed := s.parsed + 1, hist := s.hist + [s.slots[slot].ex], parser := Top,
                             signals := s.signals + 1))
    case EndPass =>
      var last := choice.EndOfPass? && choice.last;
      Some(s.(finished := s.finished || last, parser := Release))
    case Release => Some(s.(slots := s.slots[slot := s.slots[slot].(inUse := false)], parser := Top,
                             signals := s.signals + 1))
    case Stopped => None
  }

  /** One scheduling decision; `Spurious` is a wake-up that nobody signalled. */
  datatype Event = ByThread(t: nat) | ByParser(choice: Choice) | Spurious(t: nat)

  function Step(cfg: Config, s: State, ev: Event): Option<State>
    requires Shape(cfg, s)
  {
    match ev
    case ByThread(t) => if t < cfg.T then ThreadStep(cfg, s, t) else None
    case ByParser(choice) => ParserStep(cfg, s, choice)
    case Spurious(t) => if t < cfg.T && s.pc[t].Asleep? then Some(Goto(s, t, Scan(0))) else None
  }

  function FreshSlot(): Slot {
    Slot(false, RawExample([], None, 0.0, 1.0), 0.0, 0.0, 0.0, 0, false, None)
  }

  function Init(cfg: Config): State {
    State(seq(cfg.R, i => FreshSlot()), 0, seq(cfg.T, t => 0), false, 0,
          seq(cfg.R, i => None), seq(cfg.R, i => 0), 0, seq(cfg.T, t => 0),
          Start(cfg), seq(cfg.T, t => Head), Top, [], 0, Open, [])
  }
}
