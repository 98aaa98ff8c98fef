/** No dead ends. From every reachable state the unfinished acquisitions can be finished and the backend
    brought to rest without anything new being acquired, and after shutdown has been called the worker can
    always be brought to exit. */
module PipelineEnds {
  import opened Digraph
  import opened Traces
  import opened Pipeline
  import opened PipelineStart
  import opened PipelineWake
  import opened PipelineStop
  import opened PipelineFlow
  import opened PipelineRest

  // ---------------------------------------------------------------- how far a producer has to go

  /** Steps a producer may still need; the wait for the worker's start and the retry on a full ring are
      not counted, because nobody has to take them. */
  ghost function ProducerRank(words: nat, pc: ProducerPc): nat {
    match pc
    case Idle => 0
    case Post(retry) => if retry then 5 else 1
    case Xchg(retry) => if retry then 6 else 2
    case Publish => 3
    case CheckFull => 4
    case AwaitReady => 5
    case StoreReady => 5
    case CreateWorker => 6
    case StorePending => 7
    case StoreStop => 8
    case InitSem => 9
    case EnsureCas => 10
    case EnsureLoad => 11
    case Collect(word) => if word < words then 12 + words - word else 12
  }

  ghost function ProducerWork(words: nat, prods: seq<Producer>): nat {
    if prods == [] then 0 else ProducerRank(words, prods[0].pc) + ProducerWork(words, prods[1..])
  }

  lemma {:induction false} ProducerWorkFalls(words: nat, prods: seq<Producer>, t: nat, p: Producer)
    requires t < |prods| && ProducerRank(words, p.pc) < ProducerRank(words, prods[t].pc)
    ensures ProducerWork(words, prods[t := p]) < ProducerWork(words, prods)
  {
    hide ProducerRank;
    if t == 0 {
      assert prods[t := p][1..] == prods[1..];
    } else {
      ProducerWorkFalls(words, prods[1..], t - 1, p);
      assert prods[t := p][1..] == prods[1..][t - 1 := p];
    }
  }

  /** The one step of a producer that leads on, unless it has to wait for somebody else. */
  ghost function Onward(c: Config, s: State, t: nat): State
    requires t < |s.prods| == |s.rings| && s.prods[t].pc != Idle
  {
    var p := s.prods[t];
    match p.pc
    case Collect(word) =>
      if word < c.words then LoadWord(s, t, word)
      else if p.unknown == {} then Finish(s, t, Idle)
      else At(s, t, EnsureLoad)
    case EnsureLoad => At(s, t, if s.started == 2 then CheckFull else EnsureCas)
    case EnsureCas => if s.started == 0 then At(s, t, InitSem).(started := 1, starter := t) else At(s, t, AwaitReady)
    case InitSem => At(s, t, StoreStop).(sem := 0)
    case StoreStop => At(s, t, StorePending).(stop := false)
    case StorePending => At(s, t, CreateWorker).(pending := false)
    case CreateWorker => At(s, t, StoreReady).(worker := Scan(0, false, false))
    case StoreReady => At(s, t, CheckFull).(started := 2)
    case AwaitReady => At(s, t, CheckFull)
    case CheckFull =>
      if |s.rings[t]| < c.capacity then At(s, t, Publish)
      else Finish(s, t, Xchg(false)).(dropped := s.dropped + InFlight(p))
    case Publish => PublishEvent(s, t)
    case Xchg(retry) => At(s, t, if s.pending then After(retry) else Post(retry)).(pending := true)
    case Post(retry) => At(s, t, After(retry)).(sem := s.sem + 1)
  }

  /** It has to wait for the starting producer, or for room in its ring. */
  ghost predicate MustWait(c: Config, s: State, t: nat)
    requires t < |s.prods| == |s.rings|
  {
    || (s.prods[t].pc.AwaitReady? && s.started != 2)
    || (s.prods[t].pc.CheckFull? && |s.rings[t]| >= c.capacity && c.policy == Stall)
  }

  lemma OnwardIsStep(c: Config, s: State, t: nat)
    requires t < |s.prods| == |s.rings| && s.prods[t].pc != Idle && !MustWait(c, s, t)
    ensures Next(c, s, Onward(c, s, t))
  {
    hide LoadWord, Finish, At, PublishEvent, InFlight;
    var s' := Onward(c, s, t);
    match s.prods[t].pc {
    case Collect(_) => assert CollectStep(c, s, s', t);
    case CheckFull => assert OfferStep(c, s, s', t);
    case Publish => assert OfferStep(c, s, s', t);
    case Xchg(_) => assert SignalStep(s, s', t);
    case Post(_) => assert SignalStep(s, s', t);
    case InitSem => assert CreateStep(s, s', t);
    case StoreStop => assert CreateStep(s, s', t);
    case StorePending => assert CreateStep(s, s', t);
    case CreateWorker => assert CreateStep(s, s', t);
    case EnsureLoad => assert RaceStep(s, s', t);
    case EnsureCas => assert RaceStep(s, s', t);
    case StoreReady => assert RaceStep(s, s', t);
    case AwaitReady => assert RaceStep(s, s', t);
    }
    assert ProducerStep(c, s, s', t);
  }

  /** What that step makes of the producer itself. */
  ghost function OnwardPc(c: Config, s: State, t: nat): ProducerPc
    requires t < |s.prods| == |s.rings| && s.prods[t].pc != Idle
  {
    match s.prods[t].pc
    case Collect(word) =>
      if word < c.words then Collect(word + 1) else if s.prods[t].unknown == {} then Idle else EnsureLoad
    case EnsureLoad => if s.started == 2 then CheckFull else EnsureCas
    case EnsureCas => if s.started == 0 then InitSem else AwaitReady
    case InitSem => StoreStop
    case StoreStop => StorePending
    case StorePending => CreateWorker
    case CreateWorker => StoreReady
    case StoreReady => CheckFull
    case AwaitReady => CheckFull
    case CheckFull => if |s.rings[t]| < c.capacity then Publish else Xchg(false)
    case Publish => Xchg(false)
    case Xchg(retry) => if s.pending then After(retry) else Post(retry)
    case Post(retry) => After(retry)
  }

  lemma OnwardMoves(c: Config, s: State, t: nat)
    requires t < |s.prods| == |s.rings| && s.prods[t].pc != Idle
    ensures var s' := Onward(c, s, t);
            && |s'.prods| == |s.prods| && s'.prods == s.prods[t := s'.prods[t]]
            && s'.prods[t].log == s.prods[t].log && s'.prods[t].pc == OnwardPc(c, s, t)
  {
    hide InFlight, Target, After;
  }

  lemma OnwardLeadsOn(c: Config, s: State, t: nat)
    requires t < |s.prods| == |s.rings| && s.prods[t].pc != Idle && !MustWait(c, s, t)
    ensures var s' := Onward(c, s, t);
            && |s'.prods| == |s.prods| && s'.prods == s.prods[t := s'.prods[t]]
            && s'.prods[t].log == s.prods[t].log
            && ProducerRank(c.words, s'.prods[t].pc) < ProducerRank(c.words, s.prods[t].pc)
  {
    OnwardMoves(c, s, t);
    hide Onward;
  }

  // ---------------------------------------------------------------- the starting producer exists

  ghost predicate StarterInv(s: State) {
    && s.started <= 2
    && (s.started == 1 ==> s.starter < |s.prods| && Starting(s.prods[s.starter].pc))
    && forall t :: 0 <= t < |s.prods| && s.prods[t].pc.AwaitReady? ==> s.started > 0
  }

  /** No producer in the middle of starting the worker moves, and the race is not decided. */
  ghost predicate LeavesStarter(s: State, s': State) {
    && |s'.prods| == |s.prods| && s'.started == s.started && s'.starter == s.starter
    && (forall t :: 0 <= t < |s.prods| && Starting(s.prods[t].pc) ==> s'.prods[t] == s.prods[t])
    && forall t :: 0 <= t < |s.prods| && s'.prods[t].pc.AwaitReady? ==> s.prods[t].pc.AwaitReady?
  }

  lemma CollectLeavesStarter(c: Config, s: State, s': State, t: nat)
    requires t < |s.prods| && CollectStep(c, s, s', t)
    ensures LeavesStarter(s, s')
  {
    hide Held, EdgesTo;
    if s.prods[t].pc == Idle {
      var op :| s' == Begin(s, t, op);
    }
  }

  lemma OfferLeavesStarter(c: Config, s: State, s': State, t: nat)
    requires t < |s.prods| == |s.rings| && (OfferStep(c, s, s', t) || SignalStep(s, s', t))
    ensures LeavesStarter(s, s')
  {
    hide EdgesTo, Target;
  }

  lemma RaceKeepsStarter(s: State, s': State, t: nat)
    requires t < |s.prods| && StarterInv(s) && RaceStep(s, s', t)
    ensures StarterInv(s')
  {
  }

  lemma CreateKeepsStarter(c: Config, s: State, s': State, t: nat)
    requires StartInv(c, s) && t < |s.prods| && StarterInv(s) && CreateStep(s, s', t)
    ensures StarterInv(s')
  {
    assert Placed(s.prods[t].pc, t, s);
  }

  lemma NextKeepsStarter(c: Config, s: State, s': State)
    requires StartInv(c, s) && StarterInv(s) && Next(c, s, s')
    ensures StarterInv(s')
  {
    hide CollectStep, OfferStep, RaceStep, CreateStep, SignalStep, WorkerStep, Published, StartInv;
    if t :| ProducerStep(c, s, s', t) {
      if CollectStep(c, s, s', t) {
        CollectLeavesStarter(c, s, s', t);
      } else if RaceStep(s, s', t) {
        RaceKeepsStarter(s, s', t);
      } else if CreateStep(s, s', t) {
        CreateKeepsStarter(c, s, s', t);
      } else {
        OfferLeavesStarter(c, s, s', t);
      }
    } else if WorkerStep(s, s') {
      WorkerLeavesProducers(s, s');
    }
  }

  lemma {:induction false} RunKeepsStarter(c: Config, run: seq<State>)
    requires Run(c, run)
    ensures StarterInv(run[|run| - 1])
  {
    hide StarterInv, StartInv, Next;
    var n := |run| - 1;
    if n == 0 {
      NotStarted(c, run[0]);
    } else {
      RunKeepsStarter(c, run[..n]);
      WorkerStartsOnce(c, run[..n]);
      assert Next(c, run[n - 1], run[n - 1 + 1]);
      NextKeepsStarter(c, run[n - 1], run[n]);
    }
  }

  lemma NotStarted(c: Config, s: State)
    requires Init(c, s)
    ensures StarterInv(s)
  {
  }

  // ---------------------------------------------------------------- somebody can always lead on

  /** A step that begins no acquisition and brings the end nearer. */
  ghost predicate LeadsOn(c: Config, s: State, s': State) {
    && Next(c, s, s') && Logs(s') == Logs(s)
    && s'.shutdown == s.shutdown && s'.due == s.due && (s'.stop ==> s.stop)
    && (ProducerWork(c.words, s'.prods) < ProducerWork(c.words, s.prods) ||
        (s'.prods == s.prods && WorkLeft(s') < WorkLeft(s)))
  }

  lemma ProducerLeadsOn(c: Config, s: State, t: nat) returns (s': State)
    requires t < |s.prods| == |s.rings| && s.prods[t].pc != Idle && !MustWait(c, s, t)
    ensures LeadsOn(c, s, s')
  {
    hide Next, ProducerRank, WorkLeft;
    s' := Onward(c, s, t);
    OnwardIsStep(c, s, t);
    OnwardLeadsOn(c, s, t);
    OnwardLeavesShutdown(c, s, t);
    ProducerWorkFalls(c.words, s.prods, t, s'.prods[t]);
    hide Onward;
    assert Logs(s') == Logs(s);
  }

  lemma OnwardLeavesShutdown(c: Config, s: State, t: nat)
    requires t < |s.prods| == |s.rings| && s.prods[t].pc != Idle
    ensures var s' := Onward(c, s, t);
            s'.shutdown == s.shutdown && s'.due == s.due && (s'.stop ==> s.stop)
  {
    hide InFlight, Target;
  }

  lemma WorkerLeadsOn(c: Config, s: State) returns (s': State)
    requires !s.worker.Unborn? && !s.worker.Exited? && !Asleep(s)
    ensures LeadsOn(c, s, s') && WorkerStep(s, s')
  {
    s' := WorkerCanStep(s);
    hide WorkerStep, WorkLeft;
    WorkerWorks(s, s');
    WorkerLeavesProducers(s, s');
    assert Logs(s') == Logs(s);
  }

  /** The worker, or, while it is blocked with work to do, one of its wakers. */
  lemma WorkerOrWakerLeadsOn(c: Config, run: seq<State>) returns (s': State)
    requires Run(c, run)
    requires var s := run[|run| - 1];
             && !s.worker.Unborn? && !s.worker.Exited?
             && (Asleep(s) ==> s.shutdown == StopPosted || exists t :: 0 <= t < |s.rings| && s.rings[t] != [])
    ensures LeadsOn(c, run[|run| - 1], s')
  {
    var s := run[|run| - 1];
    if Asleep(s) {
      if s.shutdown == StopPosted {
        ShutdownIsNotStuck(c, run);
      } else {
        NoLostWakeup(c, run);
      }
      var t: nat :| WakerAt(s, t);
      WorkerStartsOnce(c, run);
      s' := ProducerLeadsOn(c, s, t);
    } else {
      s' := WorkerLeadsOn(c, s);
    }
  }

  /** As long as an acquisition is unfinished and shutdown has not begun, some step leads on: the
      acquisition's own, the starting producer's when it waits for the start, or the worker's or a waker's
      when it waits for room. */
  lemma SomeStepLeadsOn(c: Config, run: seq<State>, t: nat) returns (s': State)
    requires Run(c, run) && c.capacity > 0 && !run[|run| - 1].stop
    requires t < |run[|run| - 1].prods| && run[|run| - 1].prods[t].pc != Idle
    ensures LeadsOn(c, run[|run| - 1], s')
  {
    var s := run[|run| - 1];
    WorkerStartsOnce(c, run);
    RunKeepsStarter(c, run);
    NotExited(c, run);
    assert Placed(s.prods[t].pc, t, s);
    hide Run, LeadsOn, ProducerWork;
    if !MustWait(c, s, t) {
      s' := ProducerLeadsOn(c, s, t);
    } else if s.prods[t].pc.AwaitReady? {
      s' := ProducerLeadsOn(c, s, s.starter);
    } else {
      assert s.rings[t] != [];
      s' := WorkerOrWakerLeadsOn(c, run);
    }
  }

  // ---------------------------------------------------------------- main results

  /** From every reachable state before shutdown, whatever the unfinished acquisitions are waiting for, some
      continuation with the same traces finishes them all and brings the backend to rest. So every prefix
      of a run can be completed to one that BackendsAgree speaks of. */
  lemma {:induction false} QuiescenceIsReachable(c: Config, run: seq<State>) returns (more: seq<State>)
    requires Run(c, run) && c.capacity > 0 && !run[|run| - 1].stop
    ensures Run(c, run + more)
    ensures var end := (run + more)[|run + more| - 1];
            Quiescent(end) && Logs(end) == Logs(run[|run| - 1]) && !end.stop
    decreases ProducerWork(c.words, run[|run| - 1].prods), WorkLeft(run[|run| - 1])
  {
    var s := run[|run| - 1];
    hide Run, Next, WorkLeft, ProducerWork, Quiescent, Logs, Asleep, WorkerOnly;
    if t: nat :| t < |s.prods| && s.prods[t].pc != Idle {
      var s' := SomeStepLeadsOn(c, run, t);
      ExtendRun(c, run, s');
      var rest := QuiescenceIsReachable(c, run + [s']);
      OneStepFirst(run, s', rest);
      more := [s'] + rest;
    } else {
      more := IdleComesToRest(c, run);
    }
  }

  lemma IdleComesToRest(c: Config, run: seq<State>) returns (more: seq<State>)
    requires Run(c, run) && AllIdle(run[|run| - 1])
    ensures Run(c, run + more)
    ensures var end := (run + more)[|run + more| - 1];
            Quiescent(end) && Logs(end) == Logs(run[|run| - 1]) && !end.stop
  {
    var s := run[|run| - 1];
    hide Run, Quiescent, Logs, WorkerStep;
    var states := RestIsReachable(c, run);
    var end := states[|states| - 1];
    more := states[1..];
    LastOfTail(run, states);
    SameProducersSameLogs(s, end);
    WorkerNeverStops(states);
  }

  lemma LastOfTail(run: seq<State>, states: seq<State>)
    requires |run| > 0 && |states| > 0 && states[0] == run[|run| - 1]
    ensures (run + states[1..])[|run + states[1..]| - 1] == states[|states| - 1]
  {
  }

  lemma OneStepFirst(run: seq<State>, s: State, rest: seq<State>)
    ensures run + [s] + rest == run + ([s] + rest)
  {
  }

  lemma SameProducersSameLogs(s: State, s': State)
    requires s'.prods == s.prods
    ensures Logs(s') == Logs(s)
  {
  }

  lemma {:induction false} WorkerNeverStops(states: seq<State>)
    requires WorkerOnly(states)
    ensures states[|states| - 1].stop == states[0].stop
  {
    hide WorkerStep;
    var n := |states| - 1;
    if n > 0 {
      WorkerNeverStops(states[..n]);
      assert WorkerStep(states[n - 1], states[n - 1 + 1]);
      WorkerLeavesProducers(states[n - 1], states[n]);
    }
  }

  /** Once shutdown has begun, the join it ends with can always return: from every reachable state, whatever
      the producers are in the middle of, some continuation with the same traces has the worker exit, with
      everything inserted that was published before the stop flag was set. */
  lemma ShutdownReturns(c: Config, run: seq<State>) returns (more: seq<State>)
    requires Run(c, run) && run[|run| - 1].stop
    ensures Run(c, run + more)
    ensures var s, end := run[|run| - 1], (run + more)[|run + more| - 1];
            && end.worker.Exited? && Logs(end) == Logs(s)
            && end.due == s.due && s.due <= end.graph.edges
  {
    var s := run[|run| - 1];
    WorkerStartsOnce(c, run);
    if s.shutdown == StopStored {
      var s' := s.(sem := s.sem + 1, shutdown := StopPosted);
      assert ShutdownStep(s, s') && Next(c, s, s');
      ExtendRun(c, run, s');
      SameProducersSameLogs(s, s');
      var rest := PostedShutdownReturns(c, run + [s']);
      OneStepFirst(run, s', rest);
      more := [s'] + rest;
    } else {
      more := PostedShutdownReturns(c, run);
    }
    ShutdownDrainsEverything(c, run + more);
  }

  lemma {:induction false} PostedShutdownReturns(c: Config, run: seq<State>) returns (more: seq<State>)
    requires Run(c, run) && run[|run| - 1].shutdown == StopPosted
    ensures Run(c, run + more)
    ensures var s, end := run[|run| - 1], (run + more)[|run + more| - 1];
            end.worker.Exited? && Logs(end) == Logs(s) && end.due == s.due
    decreases ProducerWork(c.words, run[|run| - 1].prods), WorkLeft(run[|run| - 1])
  {
    var s := run[|run| - 1];
    WorkerStartsOnce(c, run);
    hide Run, Next, WorkLeft, ProducerWork, Logs;
    if s.worker.Exited? {
      more := [];
      assert run + more == run;
    } else {
      var s' := WorkerOrWakerLeadsOn(c, run);
      ExtendRun(c, run, s');
      var rest := PostedShutdownReturns(c, run + [s']);
      OneStepFirst(run, s', rest);
      more := [s'] + rest;
    }
  }
}
