/** The lazy start of the worker: of all producers racing for it exactly one creates it, and nobody
    signals, enqueues or stops the worker before it exists. */
module PipelineStart {
  import opened Pipeline

  /** Between winning the compare-and-swap and storing "ready". */
  ghost predicate Starting(pc: ProducerPc) {
    PreCreate(pc) || pc.StoreReady?
  }

  ghost predicate PreCreate(pc: ProducerPc) {
    pc.InitSem? || pc.StoreStop? || pc.StorePending? || pc.CreateWorker?
  }

  ghost predicate PastStart(pc: ProducerPc) {
    pc.CheckFull? || pc.Publish? || pc.Xchg? || pc.Post?
  }

  /** What a producer's place says about the start. */
  ghost predicate Placed(pc: ProducerPc, t: nat, s: State) {
    && (Starting(pc) ==> s.started == 1 && s.starter == t && (s.worker == Unborn <==> PreCreate(pc)))
    && (PastStart(pc) ==> s.started == 2)
  }

  ghost predicate StartInv(c: Config, s: State) {
    && |s.prods| == |s.rings| == c.threads
    && (forall t :: 0 <= t < c.threads ==> Placed(s.prods[t].pc, t, s))
    && (s.started == 0 ==> s.worker == Unborn)
    && (s.started == 2 ==> s.worker != Unborn)
    && (s.started != 2 ==> s.shutdown == NotCalled && forall t :: 0 <= t < c.threads ==> s.rings[t] == [])
    && (s.stop <==> s.shutdown != NotCalled)
  }

  lemma InitStart(c: Config, s: State)
    requires Init(c, s)
    ensures StartInv(c, s)
  {
  }

  lemma CollectKeepsStart(c: Config, s: State, s': State, t: nat)
    requires StartInv(c, s) && t < c.threads && CollectStep(c, s, s', t)
    ensures StartInv(c, s')
  {
    if s.prods[t].pc == Idle {
      var op :| s' == Begin(s, t, op);
    }
  }

  lemma OfferKeepsStart(c: Config, s: State, s': State, t: nat)
    requires StartInv(c, s) && t < c.threads && OfferStep(c, s, s', t)
    ensures StartInv(c, s')
  {
  }

  lemma RaceKeepsStart(c: Config, s: State, s': State, t: nat)
    requires StartInv(c, s) && t < c.threads && RaceStep(s, s', t)
    ensures StartInv(c, s')
  {
  }

  lemma CreateKeepsStart(c: Config, s: State, s': State, t: nat)
    requires StartInv(c, s) && t < c.threads && CreateStep(s, s', t)
    ensures StartInv(c, s')
  {
  }

  lemma SignalKeepsStart(c: Config, s: State, s': State, t: nat)
    requires StartInv(c, s) && t < c.threads && SignalStep(s, s', t)
    ensures StartInv(c, s')
  {
  }

  /** What a worker step leaves alone. */
  ghost predicate WorkerFrame(s: State, s': State) {
    && s'.prods == s.prods && s'.started == s.started && s'.starter == s.starter
    && s'.stop == s.stop && s'.shutdown == s.shutdown && s'.dropped == s.dropped && s'.due == s.due
    && s.worker != Unborn && s'.worker != Unborn
    && |s'.rings| == |s.rings|
    && forall t :: 0 <= t < |s.rings| && s.rings[t] == [] ==> s'.rings[t] == []
  }

  lemma ScanFrame(s: State, s': State)
    requires ScanStep(s, s')
    ensures WorkerFrame(s, s')
  {
  }

  lemma InsertFrame(s: State, s': State)
    requires InsertStep(s, s')
    ensures WorkerFrame(s, s')
  {
  }

  lemma FlagFrame(s: State, s': State)
    requires FlagStep(s, s')
    ensures WorkerFrame(s, s')
  {
  }

  lemma StopFrame(s: State, s': State)
    requires StopStep(s, s')
    ensures WorkerFrame(s, s')
  {
  }

  lemma WorkerKeepsStart(c: Config, s: State, s': State)
    requires StartInv(c, s) && WorkerStep(s, s')
    ensures StartInv(c, s')
  {
    hide ScanStep, InsertStep, FlagStep, StopStep;
    assert WorkerFrame(s, s') by {
      if ScanStep(s, s') {
        ScanFrame(s, s');
      } else if InsertStep(s, s') {
        InsertFrame(s, s');
      } else if FlagStep(s, s') {
        FlagFrame(s, s');
      } else {
        StopFrame(s, s');
      }
    }
  }

  lemma NextKeepsStart(c: Config, s: State, s': State)
    requires StartInv(c, s) && Next(c, s, s')
    ensures StartInv(c, s')
  {
    hide CollectStep, OfferStep, RaceStep, CreateStep, SignalStep, WorkerStep, Published;
    if t :| ProducerStep(c, s, s', t) {
      if CollectStep(c, s, s', t) {
        CollectKeepsStart(c, s, s', t);
      } else if OfferStep(c, s, s', t) {
        OfferKeepsStart(c, s, s', t);
      } else if RaceStep(s, s', t) {
        RaceKeepsStart(c, s, s', t);
      } else if CreateStep(s, s', t) {
        CreateKeepsStart(c, s, s', t);
      } else {
        SignalKeepsStart(c, s, s', t);
      }
    } else if WorkerStep(s, s') {
      WorkerKeepsStart(c, s, s');
    }
  }

  /** At most one producer is ever between winning the race and storing "ready", the worker is not
      created twice, and whoever signals or enqueues finds it created. */
  lemma {:induction false} WorkerStartsOnce(c: Config, run: seq<State>)
    requires Run(c, run)
    ensures StartInv(c, run[|run| - 1])
  {
    if |run| == 1 {
      InitStart(c, run[0]);
    } else {
      WorkerStartsOnce(c, run[..|run| - 1]);
      assert Next(c, run[|run| - 2], run[|run| - 2 + 1]);
      NextKeepsStart(c, run[|run| - 2], run[|run| - 1]);
    }
  }
}
