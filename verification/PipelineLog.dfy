/** What the worker has logged. In every reachable state graph and report log are those of inserting the
    recorded pairs one after the other, each once, in some order. */
module PipelineLog {
  import opened Digraph
  import opened Traces
  import opened Pipeline
  import opened PipelineStart
  import opened PipelineRest
  import opened PipelineFlow

  /** Only an insertion of the worker changes graph or log. */
  lemma GraphChange(c: Config, s: State, s': State) returns (e: Edge)
    requires Flow(c, s) && Next(c, s, s')
    ensures s'.graph == s.graph || (e !in s.graph.edges && e.0 != e.1 && s'.graph == Insert(s.graph, e))
  {
    hide CollectStep, OfferStep, RaceStep, CreateStep, SignalStep, ScanStep, InsertStep, FlagStep, StopStep, Published;
    hide Flow;
    e := (0, 0);
    if t :| ProducerStep(c, s, s', t) {
      ProducerLeavesGraph(c, s, s', t);
    } else if InsertStep(s, s') {
      e := InsertChange(c, s, s');
    } else if WorkerStep(s, s') {
      OtherWorkerStepsLeaveGraph(s, s');
    }
  }

  lemma ProducerLeavesGraph(c: Config, s: State, s': State, t: nat)
    requires ProducerStep(c, s, s', t)
    ensures s'.graph == s.graph
  {
    hide CollectStep, OfferStep;
    if CollectStep(c, s, s', t) {
      CollectLeavesGraph(c, s, s', t);
    } else if OfferStep(c, s, s', t) {
      OfferLeavesGraph(c, s, s', t);
    }
  }

  lemma CollectLeavesGraph(c: Config, s: State, s': State, t: nat)
    requires t < |s.prods| && CollectStep(c, s, s', t)
    ensures s'.graph == s.graph
  {
    hide Held, EdgesTo, Target;
    if s.prods[t].pc == Idle {
      var op :| s' == Begin(s, t, op);
    }
  }

  lemma OfferLeavesGraph(c: Config, s: State, s': State, t: nat)
    requires t < |s.prods| == |s.rings| && OfferStep(c, s, s', t)
    ensures s'.graph == s.graph
  {
    hide InFlight, Target;
  }

  lemma OtherWorkerStepsLeaveGraph(s: State, s': State)
    requires ScanStep(s, s') || FlagStep(s, s') || StopStep(s, s')
    ensures s'.graph == s.graph
  {
    hide EventEdges;
  }

  lemma InsertChange(c: Config, s: State, s': State) returns (e: Edge)
    requires Flow(c, s) && InsertStep(s, s')
    ensures s'.graph == s.graph || (e !in s.graph.edges && e.0 != e.1 && s'.graph == Insert(s.graph, e))
  {
    hide Flow, Insert;
    e := (0, 0);
    if s.worker.InsertBatch? && s.batch != {} {
      e :| e in s.batch && s' == InsertOne(s, e, s.worker.final, s.worker.progress);
      BatchHasNoLoops(c, s, e);
    }
  }

  /** The order in which the worker inserted what it has recorded. */
  lemma {:induction false} WorkerLogIsExact(c: Config, run: seq<State>) returns (es: seq<Edge>)
    requires Run(c, run)
    ensures BuiltBy(run[|run| - 1].graph, es)
    ensures |run[|run| - 1].graph.reports| == ReportsFor({}, es) && LogsClosingPairs(run[|run| - 1].graph)
  {
    es := InsertionOrder(c, run);
    InsertSeqLaws(es);
  }

  lemma {:induction false} InsertionOrder(c: Config, run: seq<State>) returns (es: seq<Edge>)
    requires Run(c, run)
    ensures BuiltBy(run[|run| - 1].graph, es)
  {
    hide Next, BuiltBy, Flow, Insert;
    var n := |run| - 1;
    if n == 0 {
      es := [];
      BuiltByNothing();
    } else {
      es := InsertionOrder(c, run[..n]);
      RunKeepsFlow(c, run[..n]);
      assert Next(c, run[n - 1], run[n - 1 + 1]);
      var e := GraphChange(c, run[n - 1], run[n]);
      if run[n].graph != run[n - 1].graph {
        BuiltByOneMore(run[n - 1].graph, es, e);
        es := es + [e];
      }
    }
  }
}
