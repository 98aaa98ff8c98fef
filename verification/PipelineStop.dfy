/** Shutdown: the worker exits only after every event published before the stop flag was set has been
    inserted, and once the stop post and the posts in flight have landed it is not left blocked. */
module PipelineStop {
  import opened Digraph
  import opened Traces
  import opened Pipeline
  import opened PipelineStart
  import opened PipelineWake

  /** The pair sits in ring `from` or a later one. */
  ghost predicate QueuedFrom(rings: seq<seq<Event>>, from: nat, e: Edge) {
    exists t :: from <= t < |rings| && e in QueueEdges(rings[t])
  }

  lemma {:induction false} InAllQueueEdges(rings: seq<seq<Event>>, e: Edge)
    ensures e in AllQueueEdges(rings) <==> QueuedFrom(rings, 0, e)
  {
    if rings != [] {
      InAllQueueEdges(rings[1..], e);
      if e in AllQueueEdges(rings[1..]) {
        var t :| 0 <= t < |rings[1..]| && e in QueueEdges(rings[1..][t]);
        assert e in QueueEdges(rings[t + 1]);
      }
      if t :| 0 <= t < |rings| && e in QueueEdges(rings[t]) {
        assert t > 0 ==> e in QueueEdges(rings[1..][t - 1]);
      }
    }
  }

  /** What has been published: recorded, in the batch, or in a ring. */
  lemma PublishedIff(s: State, e: Edge)
    ensures e in Published(s) <==> e in s.graph.edges || e in s.batch || QueuedFrom(s.rings, 0, e)
  {
    InAllQueueEdges(s.rings, e);
  }

  /** The worker stands between drains. */
  ghost predicate BetweenDrains(w: WorkerPc) {
    w.Unborn? || w.ClearPending? || w.SetPending? || w.CheckStop? || w.CheckEmpty? || w.Sleep? || w.Exited?
  }

  /** The first ring in which pairs that were due can still be waiting. */
  ghost function FirstDueRing(s: State): nat {
    if s.worker.CheckEmpty? then s.worker.ring
    else if s.worker.Exited? then |s.rings|
    else 0
  }

  ghost predicate StopInv(c: Config, s: State) {
    && |s.prods| == |s.rings| == c.threads
    && (s.stop ==> forall e :: e in s.due ==>
          e in s.graph.edges || e in s.batch || QueuedFrom(s.rings, FirstDueRing(s), e))
    && (BetweenDrains(s.worker) ==> s.batch == {})
    && (forall e :: e in s.batch ==> e.0 != e.1)
    && (s.worker.CheckEmpty? || s.worker.Exited? ==> s.stop)
    && (s.worker == Sleep(false) && s.shutdown == StopPosted ==> s.sem > 0)
    && (s.worker == Sleep(true) ==> exists t :: 0 <= t < |s.rings| && s.rings[t] != [])
  }

  /** Queued pairs stay queued when rings only grow at the tail. */
  lemma QueuedGrows(rings: seq<seq<Event>>, rings': seq<seq<Event>>, from: nat, e: Edge)
    requires QueuedFrom(rings, from, e) && |rings'| == |rings|
    requires forall t :: 0 <= t < |rings| ==> QueueEdges(rings[t]) <= QueueEdges(rings'[t])
    ensures QueuedFrom(rings', from, e)
  {
    var t :| from <= t < |rings| && e in QueueEdges(rings[t]);
    assert e in QueueEdges(rings'[t]);
  }

  /** A producer step, as far as shutdown can see. */
  ghost predicate ProducerFrame(s: State, s': State) {
    && |s'.prods| == |s.prods| && |s'.rings| == |s.rings|
    && s'.graph == s.graph && s'.batch == s.batch && s'.due == s.due && s'.shutdown == s.shutdown && s'.stop == s.stop
    && (forall t :: 0 <= t < |s.rings| ==> QueueEdges(s.rings[t]) <= QueueEdges(s'.rings[t]))
    && (forall t :: 0 <= t < |s.rings| && s.rings[t] != [] ==> s'.rings[t] != [])
    && (s'.worker == s.worker || (s.shutdown == NotCalled && s'.worker == Scan(0, false, false)))
    && (s'.sem >= s.sem || s.shutdown == NotCalled)
  }

  lemma ProducerKeepsStop(c: Config, s: State, s': State)
    requires StopInv(c, s) && ProducerFrame(s, s') && (s.stop <==> s.shutdown != NotCalled)
    ensures StopInv(c, s')
  {
    hide QueueEdges;
    if s.stop {
      forall e | e in s'.due
        ensures e in s'.graph.edges || e in s'.batch || QueuedFrom(s'.rings, FirstDueRing(s'), e)
      {
        if QueuedFrom(s.rings, FirstDueRing(s), e) {
          QueuedGrows(s.rings, s'.rings, FirstDueRing(s), e);
        }
      }
    }
  }

  lemma CollectFrame(c: Config, s: State, s': State, t: nat)
    requires t < |s.prods| == |s.rings| && CollectStep(c, s, s', t)
    ensures ProducerFrame(s, s')
  {
    hide QueueEdges, Held, EdgesTo;
    if s.prods[t].pc == Idle {
      var op :| s' == Begin(s, t, op);
    }
  }

  lemma OfferFrame(c: Config, s: State, s': State, t: nat)
    requires t < |s.prods| == |s.rings| && OfferStep(c, s, s', t)
    ensures ProducerFrame(s, s')
  {
    hide QueueEdges, EdgesTo;
    QueueEdgesAppend(s.rings[t], Event(Target(s.prods[t].log), s.prods[t].unknown));
  }

  lemma RaceFrame(s: State, s': State, t: nat)
    requires t < |s.prods| == |s.rings| && RaceStep(s, s', t)
    ensures ProducerFrame(s, s')
  {
    hide QueueEdges;
  }

  lemma CreateFrame(c: Config, s: State, s': State, t: nat)
    requires StartInv(c, s) && t < |s.prods| == |s.rings| && CreateStep(s, s', t)
    ensures ProducerFrame(s, s')
  {
    hide QueueEdges;
    assert Placed(s.prods[t].pc, t, s);
  }

  lemma SignalFrame(s: State, s': State, t: nat)
    requires t < |s.prods| == |s.rings| && SignalStep(s, s', t)
    ensures ProducerFrame(s, s')
  {
    hide QueueEdges;
  }

  // ---------------------------------------------------------------- the worker

  lemma ScanKeepsStop(c: Config, s: State, s': State)
    requires StopInv(c, s) && ScanStep(s, s')
    ensures StopInv(c, s')
  {
    hide EventEdges;
    var ring := s.worker.ring;
    if ring < |s.rings| && s.rings[ring] != [] {
      EventHasNoLoops(s.rings[ring][0]);
    }
    if ring < |s.rings| && s.rings[ring] != [] && s.stop {
      forall e | e in s'.due
        ensures e in s'.graph.edges || e in s'.batch || QueuedFrom(s'.rings, 0, e)
      {
        if QueuedFrom(s.rings, 0, e) {
          var t :| 0 <= t < |s.rings| && e in QueueEdges(s.rings[t]);
          assert e in QueueEdges(s'.rings[t]) || e in EventEdges(s.rings[ring][0]);
        }
      }
    }
  }

  lemma EventHasNoLoops(ev: Event)
    ensures forall e :: e in EventEdges(ev) ==> e.0 != e.1
  {
  }

  lemma InsertKeepsStop(c: Config, s: State, s': State)
    requires StopInv(c, s) && InsertStep(s, s')
    ensures StopInv(c, s')
  {
    hide QueueEdges, Reaches, InsertOne;
    if s.worker.InsertBatch? && s.batch != {} {
      var e :| e in s.batch && s' == InsertOne(s, e, s.worker.final, s.worker.progress);
      InsertOneKeepsStop(c, s, e);
    }
  }

  /** What leaves the batch is in the graph. */
  lemma InsertOneKeepsStop(c: Config, s: State, e: Edge)
    requires StopInv(c, s) && s.worker.InsertBatch? && e in s.batch
    ensures StopInv(c, InsertOne(s, e, s.worker.final, s.worker.progress))
  {
    hide QueueEdges, Reaches;
  }

  lemma FlagKeepsStop(c: Config, s: State, s': State)
    requires StopInv(c, s) && FlagStep(s, s')
    ensures StopInv(c, s')
  {
    hide QueueEdges;
  }

  lemma StopKeepsStop(c: Config, s: State, s': State)
    requires StopInv(c, s) && StartInv(c, s) && StopStep(s, s')
    ensures StopInv(c, s')
  {
    if s.worker.CheckEmpty? && s.worker.ring < |s.rings| && s.rings[s.worker.ring] == [] {
      forall e | e in s'.due
        ensures e in s'.graph.edges || QueuedFrom(s'.rings, s.worker.ring + 1, e)
      {
        if QueuedFrom(s.rings, s.worker.ring, e) {
          var t :| s.worker.ring <= t < |s.rings| && e in QueueEdges(s.rings[t]);
          assert t != s.worker.ring;
        }
      }
    } else if s.worker.CheckEmpty? && s.worker.ring < |s.rings| {
      QueuedAnywhere(s);
    }
  }

  lemma QueuedAnywhere(s: State)
    ensures forall e, from: nat :: QueuedFrom(s.rings, from, e) ==> QueuedFrom(s.rings, 0, e)
  {
    forall e, from: nat | QueuedFrom(s.rings, from, e)
      ensures QueuedFrom(s.rings, 0, e)
    {
      var t :| from <= t < |s.rings| && e in QueueEdges(s.rings[t]);
    }
  }

  lemma ShutdownKeepsStop(c: Config, s: State, s': State)
    requires StopInv(c, s) && StartInv(c, s) && ShutdownStep(s, s')
    ensures StopInv(c, s')
  {
    hide QueueEdges;
    if s.shutdown == NotCalled {
      forall e | e in s'.due
        ensures e in s'.graph.edges || e in s'.batch || QueuedFrom(s'.rings, 0, e)
      {
        InAllQueueEdges(s.rings, e);
      }
    }
  }

  lemma NextKeepsStop(c: Config, s: State, s': State)
    requires StopInv(c, s) && StartInv(c, s) && Next(c, s, s')
    ensures StopInv(c, s')
  {
    hide CollectStep, OfferStep, RaceStep, CreateStep, SignalStep, ScanStep, InsertStep, FlagStep, StopStep,
        ShutdownStep;
    hide ProducerFrame, StopInv;
    if t :| ProducerStep(c, s, s', t) {
      if CollectStep(c, s, s', t) {
        CollectFrame(c, s, s', t);
      } else if OfferStep(c, s, s', t) {
        OfferFrame(c, s, s', t);
      } else if RaceStep(s, s', t) {
        RaceFrame(s, s', t);
      } else if CreateStep(s, s', t) {
        CreateFrame(c, s, s', t);
      } else {
        SignalFrame(s, s', t);
      }
      ProducerKeepsStop(c, s, s');
    } else if ScanStep(s, s') {
      ScanKeepsStop(c, s, s');
    } else if InsertStep(s, s') {
      InsertKeepsStop(c, s, s');
    } else if FlagStep(s, s') {
      FlagKeepsStop(c, s, s');
    } else if StopStep(s, s') {
      StopKeepsStop(c, s, s');
    } else {
      ShutdownKeepsStop(c, s, s');
    }
  }

  lemma {:induction false} RunKeepsStop(c: Config, run: seq<State>)
    requires Run(c, run)
    ensures StopInv(c, run[|run| - 1])
  {
    if |run| > 1 {
      hide StopInv, StartInv, Next;
      RunKeepsStop(c, run[..|run| - 1]);
      WorkerStartsOnce(c, run[..|run| - 1]);
      assert Next(c, run[|run| - 2], run[|run| - 2 + 1]);
      NextKeepsStop(c, run[|run| - 2], run[|run| - 1]);
    }
  }

  // ---------------------------------------------------------------- main results

  /** When the worker has exited, every pair of every event that was published before the stop flag
      was set is in the graph. */
  lemma ShutdownDrainsEverything(c: Config, run: seq<State>)
    requires Run(c, run) && run[|run| - 1].worker.Exited?
    ensures run[|run| - 1].stop && run[|run| - 1].due <= run[|run| - 1].graph.edges
  {
    RunKeepsStop(c, run);
  }

  /** `due` is what it claims to be: the pairs published, in a ring, in the batch or in the graph, at
      the moment the stop flag was stored. */
  lemma {:induction false} DueIsWhatWasPublished(c: Config, run: seq<State>, i: nat)
    requires Run(c, run) && i + 1 < |run| && !run[i].stop && run[i + 1].stop
    ensures run[|run| - 1].due == Published(run[i]) && run[|run| - 1].stop
    decreases |run|
  {
    hide Published, StartInv, Init, Next;
    var n := |run| - 1;
    assert Next(c, run[n - 1], run[n - 1 + 1]);
    WorkerStartsOnce(c, run[..n]);
    if i + 1 < n {
      DueIsWhatWasPublished(c, run[..n], i);
      DueStays(c, run[n - 1], run[n]);
    } else {
      DueIsSet(c, run[i], run[n]);
    }
  }

  lemma DueStays(c: Config, s: State, s': State)
    requires StartInv(c, s) && Next(c, s, s') && s.stop
    ensures s'.stop && s'.due == s.due
  {
    hide CollectStep, OfferStep, RaceStep, CreateStep, SignalStep, ScanStep, InsertStep, FlagStep, StopStep;
    StepKeepsDue(c, s, s');
  }

  lemma DueIsSet(c: Config, s: State, s': State)
    requires StartInv(c, s) && Next(c, s, s') && !s.stop && s'.stop
    ensures s'.due == Published(s)
  {
    hide CollectStep, OfferStep, RaceStep, CreateStep, SignalStep, ScanStep, InsertStep, FlagStep, StopStep, Published;
    StepKeepsDue(c, s, s');
  }

  /** Only shutdown touches the flag and what is due. */
  lemma StepKeepsDue(c: Config, s: State, s': State)
    requires StartInv(c, s) && Next(c, s, s')
    ensures (s'.stop == s.stop && s'.due == s.due) || ShutdownStep(s, s')
  {
    hide CollectStep, OfferStep, RaceStep, CreateStep, SignalStep, ScanStep, InsertStep, FlagStep, StopStep,
        ShutdownStep;
    if t :| ProducerStep(c, s, s', t) {
      if CollectStep(c, s, s', t) {
        CollectFrame(c, s, s', t);
      } else if OfferStep(c, s, s', t) {
        OfferFrame(c, s, s', t);
      } else if RaceStep(s, s', t) {
        RaceFrame(s, s', t);
      } else if CreateStep(s, s', t) {
        CreateFrame(c, s, s', t);
      } else {
        SignalFrame(s, s', t);
      }
    } else if ScanStep(s, s') {
      ScanFrame(s, s');
    } else if InsertStep(s, s') {
      InsertFrame(s, s');
    } else if FlagStep(s, s') {
      FlagFrame(s, s');
    } else if StopStep(s, s') {
      StopFrame(s, s');
    }
  }

  /** Once the stop post has landed the worker is blocked only while somebody else's wakeup is on its
      way. */
  lemma ShutdownIsNotStuck(c: Config, run: seq<State>)
    requires Run(c, run) && Asleep(run[|run| - 1]) && run[|run| - 1].shutdown == StopPosted
    ensures var s := run[|run| - 1]; exists t :: WakerAt(s, t)
  {
    RunKeepsStop(c, run);
    NoLostWakeup(c, run);
  }
}
