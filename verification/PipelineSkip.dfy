/** The skip path. What the snapshot shows when an acquisition begins its loads is not offered again: such an
    acquisition never reaches the ring, the worker start or the wakeup. */
module PipelineSkip {
  import opened Digraph
  import opened Reports
  import opened Traces
  import opened Pipeline
  import opened PipelineStart
  import opened PipelineRest
  import opened PipelineFlow

  lemma SnapshotGrows(c: Config, s: State, s': State)
    requires Next(c, s, s')
    ensures s.snapshot <= s'.snapshot
  {
    hide CollectStep, OfferStep, RaceStep, CreateStep, SignalStep, ScanStep, InsertStep, FlagStep, StopStep, Published;
    if t :| ProducerStep(c, s, s', t) {
      ProducerMovesOn(c, s, s', t);
    } else if WorkerStep(s, s') {
      WorkerGrowsSnapshot(s, s');
    }
  }

  /** A step of producer `t` touches neither the other producers nor the snapshot. */
  ghost predicate OnlyProducer(s: State, s': State, t: nat) {
    && s'.snapshot == s.snapshot && |s'.prods| == |s.prods|
    && forall u :: 0 <= u < |s.prods| && u != t ==> s'.prods[u] == s.prods[u]
  }

  lemma CollectIsOnly(c: Config, s: State, s': State, t: nat)
    requires t < |s.prods| && CollectStep(c, s, s', t)
    ensures OnlyProducer(s, s', t)
  {
    hide Held, EdgesTo;
    if s.prods[t].pc == Idle {
      var op :| s' == Begin(s, t, op);
    }
  }

  /** After its loads an acquisition only moves on with what it has collected. */
  ghost predicate MovesOn(s: State, s': State, t: nat) {
    && t < |s.prods| == |s'.prods| && OnlyProducer(s, s', t) && !s.prods[t].pc.Collect?
    && (InTransit(s'.prods[t].pc) ==>
          !s'.prods[t].pc.Collect? && s'.prods[t].unknown == s.prods[t].unknown && s'.prods[t].log == s.prods[t].log)
  }

  lemma OfferMovesOn(c: Config, s: State, s': State, t: nat)
    requires t < |s.prods| == |s.rings| && OfferStep(c, s, s', t)
    ensures MovesOn(s, s', t)
  {
    hide Target, InFlight;
  }

  lemma RaceMovesOn(s: State, s': State, t: nat)
    requires t < |s.prods| && RaceStep(s, s', t)
    ensures MovesOn(s, s', t)
  {
  }

  lemma CreateMovesOn(s: State, s': State, t: nat)
    requires t < |s.prods| && CreateStep(s, s', t)
    ensures MovesOn(s, s', t)
  {
  }

  lemma SignalMovesOn(s: State, s': State, t: nat)
    requires t < |s.prods| && SignalStep(s, s', t)
    ensures MovesOn(s, s', t)
  {
  }

  lemma ProducerMovesOn(c: Config, s: State, s': State, t: nat)
    requires ProducerStep(c, s, s', t)
    ensures OnlyProducer(s, s', t) && (CollectStep(c, s, s', t) || MovesOn(s, s', t))
  {
    hide CollectStep, OfferStep, RaceStep, CreateStep, SignalStep;
    if CollectStep(c, s, s', t) {
      CollectIsOnly(c, s, s', t);
    } else if OfferStep(c, s, s', t) {
      OfferMovesOn(c, s, s', t);
    } else if RaceStep(s, s', t) {
      RaceMovesOn(s, s', t);
    } else if CreateStep(s, s', t) {
      CreateMovesOn(s, s', t);
    } else {
      SignalMovesOn(s, s', t);
    }
  }

  lemma WorkerGrowsSnapshot(s: State, s': State)
    requires WorkerStep(s, s')
    ensures s.snapshot <= s'.snapshot
  {
    hide EventEdges, Insert;
  }

  lemma {:induction false} SnapshotOnlyGrows(c: Config, run: seq<State>, from: nat)
    requires Run(c, run) && from < |run|
    ensures run[from].snapshot <= run[|run| - 1].snapshot
  {
    hide Next, Init;
    var n := |run| - 1;
    if from < n {
      SnapshotOnlyGrows(c, run[..n], from);
      assert Next(c, run[n - 1], run[n - 1 + 1]);
      SnapshotGrows(c, run[n - 1], run[n]);
    }
  }

  /** The snapshot words an acquisition has loaded. */
  ghost function Loaded(c: Config, pc: ProducerPc): nat {
    if pc.Collect? && pc.word < c.words then pc.word else c.words
  }

  /** State `from` is the beginning of an acquisition of producer `t` that is still in transit at the end. */
  ghost predicate SameAcquisition(c: Config, run: seq<State>, from: nat, t: nat) {
    && from < |run| && t < |run[from].prods|
    && (forall j :: from <= j < |run| ==>
          t < |run[j].prods| && InTransit(run[j].prods[t].pc) && run[j].prods[t].log == run[from].prods[t].log)
    && run[from].prods[t].pc == Collect(0)
  }

  /** No bit of a loaded word that the snapshot had from the beginning. */
  ghost predicate NothingKnown(c: Config, p: Producer, snapshot: set<Edge>) {
    forall h :: h in p.unknown && h / 64 < Loaded(c, p.pc) ==> (h, Target(p.log)) !in snapshot
  }

  /** A load removes what the snapshot shows, and nothing puts it back. */
  lemma StepKeepsNothingKnown(c: Config, s: State, s': State, t: nat, snapshot: set<Edge>)
    requires Next(c, s, s') && t < |s.prods| && t < |s'.prods| && snapshot <= s.snapshot
    requires InTransit(s.prods[t].pc) && InTransit(s'.prods[t].pc) && s'.prods[t].log == s.prods[t].log
    requires NothingKnown(c, s.prods[t], snapshot)
    ensures NothingKnown(c, s'.prods[t], snapshot)
  {
    hide CollectStep, OfferStep, RaceStep, CreateStep, SignalStep, WorkerStep, Published, NothingKnown;
    if u :| ProducerStep(c, s, s', u) {
      if u == t {
        ProducerMovesOn(c, s, s', t);
        if CollectStep(c, s, s', t) {
          CollectKeepsNothingKnown(c, s, s', t, snapshot);
        } else {
          SameUnknown(c, s.prods[t], s'.prods[t], snapshot);
        }
      } else {
        ProducerMovesOn(c, s, s', u);
      }
    } else if WorkerStep(s, s') {
      WorkerLeavesProducers(s, s');
    }
  }

  lemma SameUnknown(c: Config, p: Producer, p': Producer, snapshot: set<Edge>)
    requires NothingKnown(c, p, snapshot) && p'.unknown == p.unknown && p'.log == p.log
    requires Loaded(c, p'.pc) == Loaded(c, p.pc)
    ensures NothingKnown(c, p', snapshot)
  {
  }

  lemma CollectKeepsNothingKnown(c: Config, s: State, s': State, t: nat, snapshot: set<Edge>)
    requires t < |s.prods| && CollectStep(c, s, s', t) && t < |s'.prods| && snapshot <= s.snapshot
    requires InTransit(s.prods[t].pc) && InTransit(s'.prods[t].pc)
    requires NothingKnown(c, s.prods[t], snapshot)
    ensures NothingKnown(c, s'.prods[t], snapshot)
  {
    hide Target;
  }

  /** Whatever else happens meanwhile, what the acquisition still means to hand over contains no pair of a
      word it has loaded that the snapshot had when the loads began. */
  lemma {:induction false} KnownPairsAreRemoved(c: Config, run: seq<State>, from: nat, t: nat)
    requires Run(c, run) && SameAcquisition(c, run, from, t)
    ensures NothingKnown(c, run[|run| - 1].prods[t], run[from].snapshot)
  {
    hide Next, Init, NothingKnown;
    var n := |run| - 1;
    if from == n {
      NothingLoaded(c, run[from].prods[t], run[from].snapshot);
    } else {
      KnownPairsAreRemoved(c, run[..n], from, t);
      SnapshotOnlyGrows(c, run[..n], from);
      assert Next(c, run[n - 1], run[n - 1 + 1]);
      StepKeepsNothingKnown(c, run[n - 1], run[n], t, run[from].snapshot);
    }
  }

  lemma NothingLoaded(c: Config, p: Producer, snapshot: set<Edge>)
    requires p.pc == Collect(0)
    ensures NothingKnown(c, p, snapshot)
  {
  }

  /** Everything held fits the snapshot words, and the snapshot has every pair of the acquisition. */
  ghost predicate AllKnown(c: Config, p: Producer, snapshot: set<Edge>) {
    && PairsWith(Holding(p.log), Target(p.log)) <= snapshot
    && forall h :: h in Holding(p.log) ==> h / 64 < c.words
  }

  /** An acquisition all of whose pairs are in the snapshot when its loads begin is skipped: it stays at its
      loads, each of its steps leaves rings, dropped pairs, worker state, flag and semaphore alone, and the
      only way it ends is by returning. */
  lemma KnownAcquisitionIsSkipped(c: Config, run: seq<State>, from: nat, t: nat)
    requires Run(c, run) && SameAcquisition(c, run, from, t)
    requires AllKnown(c, run[from].prods[t], run[from].snapshot)
    ensures var s := run[|run| - 1];
            && s.prods[t].pc.Collect?
            && forall s' :: ProducerStep(c, s, s', t) ==>
                 && (s' == LoadWord(s, t, s.prods[t].pc.word) || s' == Finish(s, t, Idle))
                 && s'.rings == s.rings && s'.dropped == s.dropped && s'.worker == s.worker
                 && s'.started == s.started && s'.pending == s.pending && s'.sem == s.sem
  {
    hide Flow, Next, Init, NothingKnown;
    var s := run[|run| - 1];
    StaysAtLoads(c, run, from, t);
    KnownPairsAreRemoved(c, run, from, t);
    RunKeepsFlow(c, run);
    forall s' | ProducerStep(c, s, s', t)
      ensures s' == LoadWord(s, t, s.prods[t].pc.word) || s' == Finish(s, t, Idle)
    {
      if s.prods[t].pc.word >= c.words {
        NothingLeft(c, s, t, run[from].snapshot);
      }
    }
  }

  lemma NothingLeft(c: Config, s: State, t: nat, snapshot: set<Edge>)
    requires Flow(c, s) && t < |s.prods| && InTransit(s.prods[t].pc)
    requires s.prods[t].pc.Collect? ==> s.prods[t].pc.word >= c.words
    requires NothingKnown(c, s.prods[t], snapshot) && AllKnown(c, s.prods[t], snapshot)
    ensures s.prods[t].unknown == {}
  {
    var p := s.prods[t];
    assert Account(p, s.rings[t], s.graph.edges, Covered(s));
    assert forall h :: h in p.unknown ==> (h, Target(p.log)) in InFlight(p);
  }

  lemma {:induction false} StaysAtLoads(c: Config, run: seq<State>, from: nat, t: nat)
    requires Run(c, run) && SameAcquisition(c, run, from, t)
    requires AllKnown(c, run[from].prods[t], run[from].snapshot)
    ensures run[|run| - 1].prods[t].pc.Collect?
  {
    hide Next, Init, NothingKnown, AllKnown, Flow;
    var n := |run| - 1;
    if from < n {
      StaysAtLoads(c, run[..n], from, t);
      KnownPairsAreRemoved(c, run[..n], from, t);
      RunKeepsFlow(c, run[..n]);
      assert Next(c, run[n - 1], run[n - 1 + 1]);
      SameLogAllKnown(c, run[from].prods[t], run[n - 1].prods[t], run[from].snapshot);
      if run[n - 1].prods[t].pc.word >= c.words {
        NothingLeft(c, run[n - 1], t, run[from].snapshot);
      }
      LoadsGoOn(c, run[n - 1], run[n], t);
    }
  }

  lemma SameLogAllKnown(c: Config, p: Producer, p': Producer, snapshot: set<Edge>)
    requires AllKnown(c, p, snapshot) && p'.log == p.log
    ensures AllKnown(c, p', snapshot)
  {
  }

  lemma LoadsGoOn(c: Config, s: State, s': State, t: nat)
    requires Next(c, s, s') && t < |s.prods| && t < |s'.prods| && s.prods[t].pc.Collect? && InTransit(s'.prods[t].pc)
    requires s.prods[t].pc.word >= c.words ==> s.prods[t].unknown == {}
    ensures s'.prods[t].pc.Collect?
  {
    hide OfferStep, RaceStep, CreateStep, SignalStep, WorkerStep, Published;
    if u :| ProducerStep(c, s, s', u) {
      if u == t {
        ProducerMovesOn(c, s, s', t);
      } else {
        ProducerMovesOn(c, s, s', u);
      }
    } else if WorkerStep(s, s') {
      WorkerLeavesProducers(s, s');
    }
  }
}
