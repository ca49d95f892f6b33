/** What the parser is given and what comes of it: nothing read is lost, changed, doubled or reordered. */
module ProtocolInput {
  import opened Basics
  import opened Learner
  import opened Shards
  import opened Protocol
  import opened ProtocolInv
  import opened ProtocolSteps
  import opened ProtocolTheorems
  import opened ProtocolProgress
  import opened ProtocolShutdown

  // ------------------------------------------------------------ the input of a schedule

  /** The example that an event hands to the parser, if it is one. */
  function Given(s: State, ev: Event): (input: seq<Example>) {
    if s.parser.Parse? && ev.ByParser? && ev.choice.Read? then [ev.choice.ex] else []
  }

  /** The examples a schedule hands to the parser, in order; it looks at the events, not at the slots. */
  ghost function Inputs(cfg: Config, s: State, evs: seq<Event>): seq<Example>
    decreases |evs|
  {
    if evs == [] || !Shape(cfg, s) then []
    else match Step(cfg, s, evs[0])
      case None => []
      case Some(s') => Given(s, evs[0]) + Inputs(cfg, s', evs[1..])
  }

  /** An event that tells the parser, at the end of a pass, that it was the last one. */
  predicate IsLast(s: State, ev: Event) {
    s.parser.EndPass? && ev == ByParser(EndOfPass(true))
  }

  ghost predicate MeetsLast(cfg: Config, s: State, evs: seq<Event>)
    decreases |evs|
  {
    evs != [] && Shape(cfg, s) &&
    match Step(cfg, s, evs[0])
    case None => false
    case Some(s') => IsLast(s, evs[0]) || MeetsLast(cfg, s', evs[1..])
  }

  /** Every example read so far: those published and the one the parser is about to publish. */
  function SoFar(cfg: Config, s: State): seq<Example>
    requires Shape(cfg, s)
  {
    s.hist + if s.parser.Publish? then [s.slots[|s.hist| % cfg.R].ex] else []
  }

  // ------------------------------------------------------------ one step

  predicate SameExamples(cfg: Config, s: State, s': State) {
    && |s.slots| == |s'.slots| == cfg.R && s'.hist == s.hist && s'.parser == s.parser && s'.finished == s.finished
    && forall j :: 0 <= j < cfg.R ==> s'.slots[j].ex == s.slots[j].ex
  }

  lemma PredKeepsExamples(cfg: Config, s: State, t: nat)
    requires Shape(cfg, s) && t < cfg.T && ThreadStep(cfg, s, t).Some? && s.pc[t].Pred?
    ensures SameExamples(cfg, s, ThreadStep(cfg, s, t).value)
  {
  }

  lemma LockingKeepsExamples(cfg: Config, s: State, t: nat)
    requires Shape(cfg, s) && t < cfg.T && ThreadStep(cfg, s, t).Some? && Locking(s.pc[t])
    ensures SameExamples(cfg, s, ThreadStep(cfg, s, t).value)
  {
  }

  lemma OthersKeepExamples(cfg: Config, s: State, t: nat)
    requires Shape(cfg, s) && t < cfg.T && ThreadStep(cfg, s, t).Some? && !s.pc[t].Pred? && !Locking(s.pc[t])
    ensures SameExamples(cfg, s, ThreadStep(cfg, s, t).value)
  {
  }

  /** What an event adds to what was read, and to the end being known. */
  ghost predicate Adds(cfg: Config, s: State, s': State, ev: Event)
    requires Shape(cfg, s) && Shape(cfg, s')
  {
    && SoFar(cfg, s') == SoFar(cfg, s) + Given(s, ev)
    && (s'.finished <==> s.finished || IsLast(s, ev))
  }

  lemma ThreadAdds(cfg: Config, s: State, s': State, ev: Event)
    requires Shape(cfg, s) && Shape(cfg, s') && SameExamples(cfg, s, s') && !ev.ByParser?
    ensures Adds(cfg, s, s', ev)
  {
    hide Shape;
  }

  lemma ParserAdds(cfg: Config, s: State, choice: Choice)
    requires Shape(cfg, s) && s.parsed == |s.hist| && ParserStep(cfg, s, choice).Some?
    requires Shape(cfg, ParserStep(cfg, s, choice).value)
    ensures Adds(cfg, s, ParserStep(cfg, s, choice).value, ByParser(choice))
  {
  }

  lemma StepAdds(cfg: Config, s: State, ev: Event)
    requires Inv(cfg, s) && Step(cfg, s, ev).Some?
    ensures Inv(cfg, Step(cfg, s, ev).value) && Adds(cfg, s, Step(cfg, s, ev).value, ev)
  {
    StepKeeps(cfg, s, ev);
    var s' := Step(cfg, s, ev).value;
    assert Shape(cfg, s') && s.parsed == |s.hist|;
    hide Inv, Shape, Adds, SameExamples;
    match ev
    case ByThread(t) =>
      if s.pc[t].Pred? {
        PredKeepsExamples(cfg, s, t);
      } else if Locking(s.pc[t]) {
        LockingKeepsExamples(cfg, s, t);
      } else {
        OthersKeepExamples(cfg, s, t);
      }
      ThreadAdds(cfg, s, s', ev);
    case Spurious(t) =>
      assert SameExamples(cfg, s, s') by { SpuriousKeepsExamples(cfg, s, t); }
      ThreadAdds(cfg, s, s', ev);
    case ByParser(choice) => ParserAdds(cfg, s, choice);
  }

  lemma SpuriousKeepsExamples(cfg: Config, s: State, t: nat)
    requires Shape(cfg, s) && t < cfg.T
    ensures SameExamples(cfg, s, Goto(s, t, Scan(0)))
  {
  }

  // ------------------------------------------------------------ whole schedules

  lemma InvShape(cfg: Config, s: State)
    requires Inv(cfg, s)
    ensures Shape(cfg, s)
  {
  }

  lemma Longer(a: seq<Example>, b: seq<Example>, c: seq<Example>, d: seq<Example>)
    requires b == a + c
    ensures b + d == a + (c + d)
  {
  }

  lemma {:induction false} ReadsOn(cfg: Config, s: State, evs: seq<Event>)
    requires Inv(cfg, s) && Exec(cfg, s, evs).Some?
    ensures Inv(cfg, Exec(cfg, s, evs).value)
    ensures SoFar(cfg, Exec(cfg, s, evs).value) == SoFar(cfg, s) + Inputs(cfg, s, evs)
    ensures Exec(cfg, s, evs).value.finished <==> s.finished || MeetsLast(cfg, s, evs)
    decreases |evs|
  {
    hide Shape, Inv, Step, SoFar, Given, IsLast;
    InvShape(cfg, s);
    if evs == [] {
      assert SoFar(cfg, s) + [] == SoFar(cfg, s);
    } else {
      var s' := Step(cfg, s, evs[0]).value;
      StepAdds(cfg, s, evs[0]);
      InvShape(cfg, s');
      ReadsOn(cfg, s', evs[1..]);
      Longer(SoFar(cfg, s), SoFar(cfg, s'), Given(s, evs[0]), Inputs(cfg, s', evs[1..]));
    }
  }

  lemma NothingRead(cfg: Config)
    ensures Inv(cfg, Init(cfg)) && SoFar(cfg, Init(cfg)) == [] && !Init(cfg).finished
  {
    InitInv(cfg);
  }

  /** The published examples are those the parser was given, as they were given, and the one it still holds. */
  lemma PublishesItsInput(cfg: Config, evs: seq<Event>, s: State)
    requires Exec(cfg, Init(cfg), evs) == Some(s)
    ensures Inv(cfg, s)
    ensures Inputs(cfg, Init(cfg), evs)
         == s.hist + if s.parser.Publish? then [s.slots[|s.hist| % cfg.R].ex] else []
    ensures s.finished <==> MeetsLast(cfg, Init(cfg), evs)
  {
    NothingRead(cfg);
    ReadsOn(cfg, Init(cfg), evs);
  }

  // ------------------------------------------------------------ predictions of the input

  lemma {:induction false} PrefixSame(cfg: Config, hist: seq<Example>, all: seq<Example>, e: nat)
    requires e <= |hist| && hist <= all
    ensures After(cfg, all, e) == After(cfg, hist, e) && SeqWeights(cfg, all, e) == SeqWeights(cfg, hist, e)
  {
    hide Turn, SeqStep;
    if e > 0 { PrefixSame(cfg, hist, all, e - 1); }
  }

  lemma PrefixPredictions(cfg: Config, hist: seq<Example>, all: seq<Example>, e: nat)
    requires e < |hist| && hist <= all
    ensures Prediction(cfg, all, e) == Prediction(cfg, hist, e)
    ensures SeqPrediction(cfg, all, e) == SeqPrediction(cfg, hist, e)
  {
    PrefixSame(cfg, hist, all, e);
    hide FinalOf, SeqFinal;
  }

  lemma PrefixOrdered(cfg: Config, hist: seq<Example>, all: seq<Example>, n: nat)
    requires n <= |hist| && hist <= all
    ensures OrderedExamples(cfg, all, n) <==> OrderedExamples(cfg, hist, n)
  {
    assert forall e :: 0 <= e < |hist| ==> all[e] == hist[e];
  }

  /** In any run the outputs are the predictions of what the parser was given, in that order: the threads' for all
      examples, the sequential learner's as long as they are in slice order. */
  lemma PredictsItsInput(cfg: Config, evs: seq<Event>, s: State)
    requires Exec(cfg, Init(cfg), evs) == Some(s)
    ensures var given := Inputs(cfg, Init(cfg), evs);
      && |s.out| <= |given|
      && (forall e :: 0 <= e < |s.out| ==> s.out[e] == Prediction(cfg, given, e))
      && (forall e :: 0 <= e < |s.out| && OrderedExamples(cfg, given, e + 1) ==>
            s.out[e] == SeqPrediction(cfg, given, e))
  {
    var given := Inputs(cfg, Init(cfg), evs);
    PublishesItsInput(cfg, evs, s);
    TakesTurns(cfg, s);
    RefinesSequential(cfg, s);
    assert s.hist <= given && |s.out| <= |s.hist|;
    hide *;
    forall e | 0 <= e < |s.out|
      ensures s.out[e] == Prediction(cfg, given, e)
      ensures OrderedExamples(cfg, given, e + 1) ==> s.out[e] == SeqPrediction(cfg, given, e)
    {
      PrefixPredictions(cfg, s.hist, given, e);
      PrefixOrdered(cfg, s.hist, given, e + 1);
    }
  }

  /** A run that has come to its end has output one prediction for every example given, and its weights have learned
      from all of them. */
  lemma CompleteRun(cfg: Config, evs: seq<Event>, s: State)
    requires Exec(cfg, Init(cfg), evs) == Some(s) && Shape(cfg, s) && s.parser.Stopped?
    requires forall t :: 0 <= t < cfg.T ==> s.pc[t].Exited?
    ensures var given := Inputs(cfg, Init(cfg), evs);
      && |s.out| == |given| && (forall e :: 0 <= e < |given| ==> s.out[e] == Prediction(cfg, given, e))
      && s.weights == After(cfg, given, |given|)
      && (OrderedExamples(cfg, given, |given|) ==>
            && Concatenated(s.weights) == SeqWeights(cfg, given, |given|)
            && forall e :: 0 <= e < |given| ==> s.out[e] == SeqPrediction(cfg, given, e))
  {
    PublishesItsInput(cfg, evs, s);
    PredictsItsInput(cfg, evs, s);
    ShutdownIsComplete(cfg, s);
    var given := Inputs(cfg, Init(cfg), evs);
    assert given == s.hist;
    hide Prediction, SeqPrediction, After, SeqWeights, Inputs, Exec, Reachable, Inv, Shape;
    if OrderedExamples(cfg, given, |given|) {
      forall e | 0 <= e < |given| ensures s.out[e] == SeqPrediction(cfg, given, e) {
        assert OrderedExamples(cfg, given, e + 1);
      }
    }
  }

  // ------------------------------------------------------------ every input can be run

  /** Between examples with the parser at the top of its loop. */
  ghost predicate AtRest(cfg: Config, s: State) {
    Inv(cfg, s) && s.parser.Top? && !s.finished && |s.out| == |s.hist|
  }

  /** One turn of the parser that reads `ex`. */
  function ReadOne(ex: Example): (evs: seq<Event>)
    ensures |evs| == 4 && forall i :: 0 <= i < 4 ==> evs[i] == ByParser(Read(ex))
  {
    [ByParser(Read(ex)), ByParser(Read(ex)), ByParser(Read(ex)), ByParser(Read(ex))]
  }

  lemma {:induction false} NoInputs(cfg: Config, s: State, evs: seq<Event>)
    requires Working(cfg, s, evs)
    ensures Inputs(cfg, s, evs) == []
    decreases |evs|
  {
    if evs != [] { NoInputs(cfg, Step(cfg, s, evs[0]).value, evs[1..]); }
  }

  lemma {:induction false} InputsConcat(cfg: Config, s: State, a: seq<Event>, b: seq<Event>)
    requires Inv(cfg, s) && Exec(cfg, s, a).Some?
    ensures Inputs(cfg, s, a + b) == Inputs(cfg, s, a) + Inputs(cfg, Exec(cfg, s, a).value, b)
    decreases |a|
  {
    hide Inv, Shape, Step, Given;
    if a == [] {
      assert a + b == b;
    } else {
      assert (a + b)[1..] == a[1..] + b && (a + b)[0] == a[0];
      StepKeeps(cfg, s, a[0]);
      assert Shape(cfg, s) by { InvShape(cfg, s); }
      InputsConcat(cfg, Step(cfg, s, a[0]).value, a[1..], b);
    }
  }

  /** With everything output the parser goes from the top of its loop to publishing whatever it is given. */
  lemma ToPublish(cfg: Config, s: State, ex: Example) returns (s1: State, s2: State, s3: State)
    requires AtRest(cfg, s)
    ensures Inv(cfg, s1) && Inv(cfg, s2) && Inv(cfg, s3) && s1.parser.Get? && s2.parser.Parse? && s3.parser.Publish?
    ensures Step(cfg, s, ByParser(Read(ex))) == Some(s1) && Step(cfg, s1, ByParser(Read(ex))) == Some(s2)
    ensures Step(cfg, s2, ByParser(Read(ex))) == Some(s3)
    ensures !s3.finished && s3.hist == s.hist
  {
    ParserStepKeeps(cfg, s, Read(ex));
    s1 := ParserStep(cfg, s, Read(ex)).value;
    SlotFree(cfg, s1);
    s2 := ParserStep(cfg, s1, Read(ex)).value;
    ParserStepKeeps(cfg, s1, Read(ex));
    s3 := ParserStep(cfg, s2, Read(ex)).value;
    ParserStepKeeps(cfg, s2, Read(ex));
  }

  lemma Publishing(cfg: Config, s: State, ex: Example) returns (r: State)
    requires Inv(cfg, s) && s.parser.Publish? && !s.finished
    ensures Step(cfg, s, ByParser(Read(ex))) == Some(r) && Inv(cfg, r) && r.parser.Top? && !r.finished
  {
    ParserStepKeeps(cfg, s, Read(ex));
    r := ParserStep(cfg, s, Read(ex)).value;
  }

  lemma ExecCons(cfg: Config, s: State, ev: Event, s': State, rest: seq<Event>)
    requires Shape(cfg, s) && Step(cfg, s, ev) == Some(s')
    ensures Exec(cfg, s, [ev] + rest) == Exec(cfg, s', rest)
    ensures Inputs(cfg, s, [ev] + rest) == Given(s, ev) + Inputs(cfg, s', rest)
  {
    hide Step, Shape, Given;
    assert ([ev] + rest)[1..] == rest;
  }

  lemma FourSteps(cfg: Config, s: State, ev: Event, s1: State, s2: State, s3: State, s4: State)
    requires Shape(cfg, s) && Shape(cfg, s1) && Shape(cfg, s2) && Shape(cfg, s3)
    requires Step(cfg, s, ev) == Some(s1) && Step(cfg, s1, ev) == Some(s2)
    requires Step(cfg, s2, ev) == Some(s3) && Step(cfg, s3, ev) == Some(s4)
    ensures Exec(cfg, s, [ev, ev, ev, ev]) == Some(s4)
    ensures Inputs(cfg, s, [ev, ev, ev, ev]) == Given(s, ev) + (Given(s1, ev) + (Given(s2, ev) + (Given(s3, ev) + [])))
  {
    assert Exec(cfg, s4, []) == Some(s4) && Inputs(cfg, s4, []) == [];
    hide *;
    ExecCons(cfg, s3, ev, s4, []);
    ExecCons(cfg, s2, ev, s3, [ev]);
    ExecCons(cfg, s1, ev, s2, [ev, ev]);
    ExecCons(cfg, s, ev, s1, [ev, ev, ev]);
    assert [ev] + [] == [ev] && [ev] + [ev] == [ev, ev] && [ev] + [ev, ev] == [ev, ev, ev];
    assert [ev] + [ev, ev, ev] == [ev, ev, ev, ev];
  }

  lemma {:induction false} WorkKeepsFinished(cfg: Config, s: State, evs: seq<Event>)
    requires Working(cfg, s, evs)
    ensures !MeetsLast(cfg, s, evs)
    decreases |evs|
  {
    if evs != [] { WorkKeepsFinished(cfg, Step(cfg, s, evs[0]).value, evs[1..]); }
  }

  /** One more example is read, published and worked off. */
  lemma RunOne(cfg: Config, s: State, ex: Example) returns (evs: seq<Event>)
    requires AtRest(cfg, s)
    ensures Exec(cfg, s, evs).Some? && AtRest(cfg, Exec(cfg, s, evs).value) && Inputs(cfg, s, evs) == [ex]
  {
    var ev := ByParser(Read(ex));
    var s1, s2, s3 := ToPublish(cfg, s, ex);
    var s4 := Publishing(cfg, s3, ex);
    var rest := Drain(cfg, s4);
    FourSteps(cfg, s, ev, s1, s2, s3, s4);
    assert Given(s, ev) + (Given(s1, ev) + (Given(s2, ev) + (Given(s3, ev) + []))) == [ex];
    NoInputs(cfg, s4, rest);
    WorkKeepsFinished(cfg, s4, rest);
    ReadsOn(cfg, s4, rest);
    hide Shape, Inv, Step, Given, Inputs, Exec, MeetsLast;
    ExecConcat(cfg, s, ReadOne(ex), rest);
    assert ReadOne(ex) == [ev, ev, ev, ev];
    InputsConcat(cfg, s, ReadOne(ex), rest) by { assert Inv(cfg, s); }
    evs := ReadOne(ex) + rest;
  }

  lemma RestAtStart(cfg: Config)
    ensures Inv(cfg, Init(cfg)) && AtRest(cfg, Init(cfg)) && Exec(cfg, Init(cfg), []) == Some(Init(cfg))
    ensures Inputs(cfg, Init(cfg), []) == []
  {
    InitInv(cfg);
  }

  lemma {:induction false} RunAll(cfg: Config, inputs: seq<Example>) returns (evs: seq<Event>)
    ensures Exec(cfg, Init(cfg), evs).Some? && AtRest(cfg, Exec(cfg, Init(cfg), evs).value)
    ensures Inputs(cfg, Init(cfg), evs) == inputs
    decreases |inputs|
  {
    hide *;
    RestAtStart(cfg);
    if inputs == [] {
      evs := [];
    } else {
      var n := |inputs| - 1;
      var before := RunAll(cfg, inputs[..n]);
      var one := RunOne(cfg, Exec(cfg, Init(cfg), before).value, inputs[n]);
      ExecConcat(cfg, Init(cfg), before, one);
      InputsConcat(cfg, Init(cfg), before, one);
      evs := before + one;
      assert inputs == inputs[..n] + [inputs[n]];
    }
  }

  /** From rest, when the input ends, the run comes to its end without reading anything more. */
  lemma RunOut(cfg: Config, s: State) returns (evs: seq<Event>, r: State)
    requires AtRest(cfg, s)
    ensures Exec(cfg, s, evs) == Some(r) && Inputs(cfg, s, evs) == []
    ensures Shape(cfg, r) && r.parser.Stopped? && forall t :: 0 <= t < cfg.T ==> r.pc[t].Exited?
  {
    var b := ParserStops(cfg, s);
    var s2 := Exec(cfg, s, b).value;
    var c := LeaveAll(cfg, s2, cfg.T);
    r := Exec(cfg, s2, c).value;
    ExecConcat(cfg, s, b, c);
    evs := b + c;
    InvShape(cfg, s);
    InvShape(cfg, r);
    ReadsOn(cfg, s, evs);
    assert SoFar(cfg, r) == SoFar(cfg, s);
    var given := Inputs(cfg, s, evs);
    assert |SoFar(cfg, s) + given| == |SoFar(cfg, s)|;
  }

  /**
   * Every list of examples, none excepted, is the input of a run to the end, and what that run outputs and learns are
   * the predictions and the weights of this list.
   */
  lemma EveryInputRuns(cfg: Config, inputs: seq<Example>) returns (evs: seq<Event>, r: State)
    ensures Exec(cfg, Init(cfg), evs) == Some(r) && Inputs(cfg, Init(cfg), evs) == inputs
    ensures Shape(cfg, r) && r.parser.Stopped? && forall t :: 0 <= t < cfg.T ==> r.pc[t].Exited?
    ensures |r.out| == |inputs| && forall e :: 0 <= e < |inputs| ==> r.out[e] == Prediction(cfg, inputs, e)
    ensures r.weights == After(cfg, inputs, |inputs|)
  {
    InitInv(cfg);
    hide *;
    var a := RunAll(cfg, inputs);
    var s := Exec(cfg, Init(cfg), a).value;
    var b;
    b, r := RunOut(cfg, s);
    ExecConcat(cfg, Init(cfg), a, b);
    InputsConcat(cfg, Init(cfg), a, b);
    assert inputs + [] == inputs;
    evs := a + b;
    CompleteRun(cfg, evs, r);
  }
}
