/** Rest is reachable. Left to itself the worker comes to a stop after a bounded number of its own steps,
    and if no acquisition is unfinished it has then drained everything. */
module PipelineRest {
  import opened Digraph
  import opened Traces
  import opened Pipeline
  import opened PipelineStart
  import opened PipelineWake
  import opened PipelineStop
  import opened PipelineFlow

  /** What the worker can still spend on one queued event: a fresh round over `n` rings for having
      dequeued it, and two steps for each of its pairs. */
  ghost function EventWeight(n: nat, ev: Event): nat {
    4 * n + 12 + 2 * |EventEdges(ev)|
  }

  ghost function QueueWeight(n: nat, q: seq<Event>): nat {
    if q == [] then 0 else EventWeight(n, q[0]) + QueueWeight(n, q[1..])
  }

  ghost function RingsWeight(n: nat, rings: seq<seq<Event>>): nat {
    if rings == [] then 0 else QueueWeight(n, rings[0]) + RingsWeight(n, rings[1..])
  }

  ghost function Ahead(n: nat, ring: nat): nat {
    if ring < n then n - ring else 0
  }

  /** How far the worker is from its next sleep when it finds nothing more. */
  ghost function Rank(n: nat, w: WorkerPc): nat {
    match w
    case Unborn => 0
    case Exited => 0
    case Sleep(_) => 0
    case CheckEmpty(ring) => 1 + Ahead(n, ring)
    case CheckStop => n + 2
    case ClearPending => 2 * n + 5
    case SetPending => 3 * n + 8
    case InsertBatch(final, progress) => InsertRank(n, final, progress)
    case Snapshot(_, final, progress) => InsertRank(n, final, progress) + 1
    case Scan(ring, final, progress) => InsertRank(n, final, progress) + 1 + Ahead(n, ring)
  }

  ghost function InsertRank(n: nat, final: bool, progress: bool): nat {
    if progress then 3 * n + 9 else if final then n + 3 else 2 * n + 6
  }

  /** A bound on the number of steps the worker can take while nobody else moves. */
  ghost function WorkLeft(s: State): nat {
    var n := |s.rings|;
    (4 * n + 12) * s.sem + RingsWeight(n, s.rings) + 2 * |s.batch| + Rank(n, s.worker)
  }

  lemma {:induction false} DequeueLightens(n: nat, rings: seq<seq<Event>>, ring: nat)
    requires ring < |rings| && rings[ring] != []
    ensures RingsWeight(n, rings[ring := rings[ring][1..]]) == RingsWeight(n, rings) - EventWeight(n, rings[ring][0])
  {
    hide EventWeight;
    var rings' := rings[ring := rings[ring][1..]];
    if ring == 0 {
      assert rings'[1..] == rings[1..];
    } else {
      DequeueLightens(n, rings[1..], ring - 1);
      assert rings'[1..] == rings[1..][ring - 1 := rings[1..][ring - 1][1..]];
    }
  }

  lemma ScanWorks(s: State, s': State)
    requires ScanStep(s, s')
    ensures WorkLeft(s') < WorkLeft(s) && |s'.rings| == |s.rings|
  {
    hide EventEdges, QueueEdges, RingsWeight;
    var ring := s.worker.ring;
    if ring < |s.rings| && s.rings[ring] != [] {
      DequeueLightens(|s.rings|, s.rings, ring);
    }
  }

  lemma InsertWorks(s: State, s': State)
    requires InsertStep(s, s')
    ensures WorkLeft(s') < WorkLeft(s) && |s'.rings| == |s.rings|
  {
    hide RingsWeight, InsertOne;
    if s.worker.InsertBatch? && s.batch != {} {
      var e :| e in s.batch && s' == InsertOne(s, e, s.worker.final, s.worker.progress);
      InsertOneWorks(s, e);
    }
  }

  lemma InsertOneWorks(s: State, e: Edge)
    requires s.worker.InsertBatch? && e in s.batch
    ensures WorkLeft(InsertOne(s, e, s.worker.final, s.worker.progress)) < WorkLeft(s)
    ensures InsertOne(s, e, s.worker.final, s.worker.progress).rings == s.rings
  {
    hide RingsWeight, Insert;
    assert |s.batch - {e}| == |s.batch| - 1;
  }

  lemma FlagWorks(s: State, s': State)
    requires FlagStep(s, s')
    ensures WorkLeft(s') < WorkLeft(s) && |s'.rings| == |s.rings|
  {
    hide RingsWeight;
    if s.worker.Sleep? {
      OneWakeup(4 * |s.rings| + 12, s.sem);
    }
  }

  lemma OneWakeup(k: nat, sem: nat)
    requires sem > 0
    ensures k * sem == k * (sem - 1) + k
  {
  }

  lemma StopWorks(s: State, s': State)
    requires StopStep(s, s')
    ensures WorkLeft(s') < WorkLeft(s) && |s'.rings| == |s.rings|
  {
    hide RingsWeight;
  }

  /** Every step of the worker uses up some of the bound. */
  lemma WorkerWorks(s: State, s': State)
    requires WorkerStep(s, s')
    ensures WorkLeft(s') < WorkLeft(s)
  {
    hide ScanStep, InsertStep, FlagStep, StopStep, WorkLeft;
    if ScanStep(s, s') {
      ScanWorks(s, s');
    } else if InsertStep(s, s') {
      InsertWorks(s, s');
    } else if FlagStep(s, s') {
      FlagWorks(s, s');
    } else {
      StopWorks(s, s');
    }
  }

  /** Unless it is not born, has exited or is blocked, the worker has a next step. */
  lemma WorkerCanStep(s: State) returns (s': State)
    requires !s.worker.Unborn? && !s.worker.Exited? && !Asleep(s)
    ensures WorkerStep(s, s')
  {
    match s.worker
    case Scan(ring, final, progress) =>
      s' := if ring >= |s.rings| then WorkerAt(s, InsertBatch(final, progress))
            else if s.rings[ring] != [] then Dequeue(s, ring, final)
            else WorkerAt(s, Scan(ring + 1, final, progress));
      assert ScanStep(s, s');
    case InsertBatch(final, progress) =>
      if s.batch == {} {
        s' := WorkerAt(s, DrainDone(final, progress));
      } else {
        var e :| e in s.batch;
        s' := InsertOne(s, e, final, progress);
      }
      assert InsertStep(s, s');
    case Snapshot(e, final, progress) =>
      s' := s.(snapshot := s.snapshot + {e}, worker := InsertBatch(final, progress));
      assert InsertStep(s, s');
    case ClearPending =>
      s' := WorkerAt(s.(pending := false), Scan(0, true, false));
      assert FlagStep(s, s');
    case SetPending =>
      s' := WorkerAt(s.(pending := true), Scan(0, false, false));
      assert FlagStep(s, s');
    case Sleep(_) =>
      s' := WorkerAt(s.(sem := s.sem - 1), Scan(0, false, false));
      assert FlagStep(s, s');
    case CheckStop =>
      s' := WorkerAt(s, if s.stop then CheckEmpty(0) else Sleep(false));
      assert StopStep(s, s');
    case CheckEmpty(ring) =>
      s' := WorkerAt(s, if ring >= |s.rings| then Exited
                        else if s.rings[ring] != [] then Sleep(true)
                        else CheckEmpty(ring + 1));
      assert StopStep(s, s');
  }

  // ---------------------------------------------------------------- main results

  /** Nobody but the worker moves. */
  ghost predicate WorkerOnly(states: seq<State>) {
    |states| > 0 && forall i :: 0 <= i < |states| - 1 ==> WorkerStep(states[i], states[i + 1])
  }

  /** However the worker runs on while nobody else moves, it takes no more steps than its bound. */
  lemma {:induction false} WorkerStopsWithinBound(states: seq<State>)
    requires WorkerOnly(states)
    ensures |states| - 1 + WorkLeft(states[|states| - 1]) <= WorkLeft(states[0])
  {
    hide WorkerStep, WorkLeft;
    var n := |states| - 1;
    if n > 0 {
      WorkerStopsWithinBound(states[..n]);
      assert WorkerStep(states[n - 1], states[n - 1 + 1]);
      WorkerWorks(states[n - 1], states[n]);
    }
  }

  /** When every acquisition has finished and the worker can go no further, everything has been drained:
      unless shutdown has begun, the backend is at rest. */
  lemma StoppedWorkerHasDrained(c: Config, run: seq<State>)
    requires Run(c, run)
    requires var s := run[|run| - 1];
             && (forall t :: 0 <= t < |s.prods| ==> s.prods[t].pc == Idle)
             && (s.worker.Unborn? || Asleep(s))
    ensures Quiescent(run[|run| - 1])
  {
    hide StopInv, StartInv;
    var s := run[|run| - 1];
    RunKeepsFlow(c, run);
    RunKeepsStop(c, run);
    BatchIsEmpty(c, s);
    if Asleep(s) {
      NoLostWakeup(c, run);
    }
    forall t | 0 <= t < |s.prods|
      ensures s.prods[t].unknown == {} && s.rings[t] == []
    {
      IdleHasNothing(c, s, t);
    }
  }

  lemma BatchIsEmpty(c: Config, s: State)
    requires StopInv(c, s) && BetweenDrains(s.worker)
    ensures s.batch == {}
  {
  }

  lemma IdleHasNothing(c: Config, s: State, t: nat)
    requires Flow(c, s) && StartInv(c, s) && t < |s.prods| && s.prods[t].pc == Idle
    ensures |s.rings| == |s.prods| && s.prods[t].unknown == {}
    ensures s.worker.Unborn? ==> s.rings[t] == []
  {
    assert Account(s.prods[t], s.rings[t], s.graph.edges, Covered(s));
  }

  /** From every reachable state in which all acquisitions have finished and shutdown has not begun, the
      worker's own steps lead to rest, with the same traces: the runs that BackendsAgree speaks of exist. */
  lemma {:induction false} RestIsReachable(c: Config, run: seq<State>) returns (states: seq<State>)
    requires Run(c, run) && AllIdle(run[|run| - 1])
    ensures WorkerOnly(states) && states[0] == run[|run| - 1] && Run(c, run + states[1..])
    ensures Quiescent(states[|states| - 1]) && states[|states| - 1].prods == run[|run| - 1].prods
    decreases WorkLeft(run[|run| - 1])
  {
    var s := run[|run| - 1];
    hide WorkLeft, WorkerStep, Run, Quiescent;
    if s.worker.Unborn? || Asleep(s) {
      StoppedWorkerHasDrained(c, run);
      states := [s];
      assert run + states[1..] == run;
    } else {
      NotExited(c, run);
      var s' := WorkerCanStep(s);
      WorkerWorks(s, s');
      WorkerLeavesProducers(s, s');
      ExtendRun(c, run, s');
      var more := RestIsReachable(c, run + [s']);
      states := [s] + more;
      assert run + [s'] + more[1..] == run + states[1..];
    }
  }

  /** No acquisition is unfinished and shutdown has not begun. */
  ghost predicate AllIdle(s: State) {
    (forall t :: 0 <= t < |s.prods| ==> s.prods[t].pc == Idle) && !s.stop
  }

  lemma NotExited(c: Config, run: seq<State>)
    requires Run(c, run) && !run[|run| - 1].stop
    ensures !run[|run| - 1].worker.Exited?
  {
    RunKeepsStop(c, run);
  }

  lemma WorkerLeavesProducers(s: State, s': State)
    requires WorkerStep(s, s')
    ensures WorkerFrame(s, s')
  {
    hide ScanStep, InsertStep, FlagStep, StopStep;
    if ScanStep(s, s') {
      ScanFrame(s, s');
    } else if InsertStep(s, s') {
      InsertFrame(s, s');
    } else if FlagStep(s, s') {
      FlagFrame(s, s');
    } else {
      StopFrame(s, s');
    }
  }
}
