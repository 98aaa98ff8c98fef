/** Conservation through the asynchronous pipeline, and its consequence: the asynchronous backend ends
    with the graph and the verdict of the synchronous one, whatever the interleaving. */
module PipelineFlow {
  import opened Digraph
  import opened Reports
  import opened Traces
  import opened Pipeline
  import opened PipelineStart
  import GlobalMachine

  /** From the start of an acquisition until its pairs are published, given up or found known. */
  ghost predicate InTransit(pc: ProducerPc) {
    !(pc.Idle? || (pc.Xchg? && !pc.retry) || (pc.Post? && !pc.retry))
  }

  /** One producer's account. `covered` is what has left its hands: graph, batch and dropped pairs. */
  ghost predicate Account(p: Producer, q: seq<Event>, edges: set<Edge>, covered: set<Edge>) {
    && QueueEdges(q) <= Observed(p.log)
    && Observed(p.log) <= covered + QueueEdges(q) + InFlight(p)
    && (if InTransit(p.pc) then
          && p.log != [] && p.log[|p.log| - 1].Acquire?
          && Target(p.log) !in p.unknown
          && InFlight(p) <= PairsWith(Holding(p.log), Target(p.log))
          && PairsWith(Holding(p.log), Target(p.log)) <= edges + InFlight(p)
        else p.unknown == {})
  }

  ghost function Covered(s: State): set<Edge> {
    s.graph.edges + s.batch + s.dropped
  }

  ghost function Logs(s: State): seq<seq<Op>> {
    seq(|s.prods|, t requires 0 <= t < |s.prods| => s.prods[t].log)
  }

  /** The pair whose predecessor bit the worker is about to publish. */
  ghost function Lag(pc: WorkerPc): set<Edge> {
    if pc.Snapshot? then {pc.e} else {}
  }

  ghost predicate Flow(c: Config, s: State) {
    && |s.prods| == |s.rings| == c.threads
    && (forall t :: 0 <= t < c.threads ==> Account(s.prods[t], s.rings[t], s.graph.edges, Covered(s)))
    && (forall e :: e in Covered(s) ==> ObservedBy(Logs(s), e))
    && s.graph.edges == s.snapshot + Lag(s.worker)
    && Exact(s.graph)
    && (c.policy == Stall ==> s.dropped == {})
  }

  lemma AccountGrows(p: Producer, q: seq<Event>, edges: set<Edge>, covered: set<Edge>, edges': set<Edge>,
                     covered': set<Edge>)
    requires Account(p, q, edges, covered) && edges <= edges' && covered <= covered'
    ensures Account(p, q, edges', covered')
  {
  }

  // ---------------------------------------------------------------- one producer

  lemma BeginAccount(p: Producer, q: seq<Event>, edges: set<Edge>, covered: set<Edge>, s: State, t: nat, op: Op)
    requires t < |s.prods| && s.prods[t] == p && p.pc == Idle
    requires Account(p, q, edges, covered)
    ensures Account(Begin(s, t, op).prods[t], q, edges, covered)
    ensures Observed(p.log) <= Observed(Begin(s, t, op).prods[t].log)
  {
    hide QueueEdges;
    var p' := Begin(s, t, op).prods[t];
    ObservedAppend(p.log, op);
    assert p'.log == p.log + [op];
    assert (p.log + [op])[..|p.log|] == p.log;
    if op.Acquire? {
      assert Holding(p'.log) == Held(p.log) && Target(p'.log) == op.lock;
      if Held(p.log) == [] {
        assert PairsWith(Held(p.log), op.lock) == {};
      } else {
        assert InFlight(p') == PairsWith(Held(p.log), op.lock);
      }
    }
  }

  lemma LoadWordAccount(p: Producer, q: seq<Event>, s: State, t: nat, word: nat)
    requires t < |s.prods| && s.prods[t] == p && p.pc == Collect(word)
    requires s.snapshot <= s.graph.edges && s.graph.edges <= Covered(s)
    requires Account(p, q, s.graph.edges, Covered(s))
    ensures Account(LoadWord(s, t, word).prods[t], q, s.graph.edges, Covered(s))
  {
    hide QueueEdges, Observed;
    var p' := LoadWord(s, t, word).prods[t];
    forall e | e in InFlight(p) && e !in InFlight(p')
      ensures e in s.graph.edges
    {
      assert (e.0, Target(p.log)) in s.snapshot;
    }
    assert InFlight(p') <= InFlight(p) <= InFlight(p') + s.graph.edges;
  }

  /** A completed acquisition has nothing unknown, so it observed only recorded pairs. */
  lemma NothingUnknownAccount(p: Producer, q: seq<Event>, edges: set<Edge>, covered: set<Edge>, pc: ProducerPc)
    requires Account(p, q, edges, covered) && InFlight(p) <= covered && !InTransit(pc)
    ensures Account(Producer(pc, p.log, {}), q, edges, covered)
  {
    hide QueueEdges, Observed;
  }

  lemma PublishAccount(p: Producer, q: seq<Event>, edges: set<Edge>, covered: set<Edge>)
    requires Account(p, q, edges, covered) && InTransit(p.pc)
    ensures Account(Producer(Xchg(false), p.log, {}), q + [Event(Target(p.log), p.unknown)], edges, covered)
  {
    QueueEdgesAppend(q, Event(Target(p.log), p.unknown));
    var init, last := p.log[..|p.log| - 1], p.log[|p.log| - 1];
    assert init + [last] == p.log;
    ObservedAppend(init, last);
  }

  /** A step of producer `t` that keeps its own account balanced keeps everybody's. */
  lemma ProducerKeepsFlow(c: Config, s: State, s': State, t: nat)
    requires Flow(c, s) && t < c.threads
    requires |s'.prods| == |s'.rings| == c.threads
    requires forall u :: 0 <= u < c.threads && u != t ==> s'.prods[u] == s.prods[u] && s'.rings[u] == s.rings[u]
    requires s'.graph == s.graph && s'.snapshot == s.snapshot && s'.batch == s.batch && Lag(s'.worker) == Lag(s.worker)
    requires s.dropped <= s'.dropped <= s.dropped + Observed(s'.prods[t].log)
    requires c.policy == Stall ==> s'.dropped == {}
    requires Account(s'.prods[t], s'.rings[t], s'.graph.edges, Covered(s'))
    requires Observed(s.prods[t].log) <= Observed(s'.prods[t].log)
    ensures Flow(c, s')
  {
    hide QueueEdges, Observed, Account, Exact;
    forall u | 0 <= u < c.threads
      ensures Account(s'.prods[u], s'.rings[u], s'.graph.edges, Covered(s'))
    {
      if u != t {
        assert Account(s.prods[u], s.rings[u], s.graph.edges, Covered(s));
        AccountGrows(s.prods[u], s.rings[u], s.graph.edges, Covered(s), s'.graph.edges, Covered(s'));
      }
    }
    forall e | e in Covered(s')
      ensures ObservedBy(Logs(s'), e)
    {
      if e in Covered(s) {
        ObservedByGrows(Logs(s), Logs(s'), e);
      } else {
        assert e in Observed(Logs(s')[t]);
      }
    }
  }

  lemma CollectKeepsFlow(c: Config, s: State, s': State, t: nat)
    requires Flow(c, s) && t < c.threads && CollectStep(c, s, s', t)
    ensures Flow(c, s')
  {
    hide EdgesTo, QueueEdges, PairsWith, Held, Exact, Observed, Account;
    var p, q := s.prods[t], s.rings[t];
    assert Account(p, q, s.graph.edges, Covered(s));
    if p.pc == Idle {
      var op :| s' == Begin(s, t, op);
      BeginAccount(p, q, s.graph.edges, Covered(s), s, t, op);
    } else if p.pc.word < c.words {
      LoadWordAccount(p, q, s, t, p.pc.word);
    } else if p.unknown == {} {
      NoneInFlight(p);
      NothingUnknownAccount(p, q, s.graph.edges, Covered(s), Idle);
    } else {
      SameAccount(p, s'.prods[t], q, s.graph.edges, Covered(s));
    }
    ProducerKeepsFlow(c, s, s', t);
  }

  lemma OfferKeepsFlow(c: Config, s: State, s': State, t: nat)
    requires Flow(c, s) && t < c.threads && OfferStep(c, s, s', t)
    ensures Flow(c, s')
  {
    hide EdgesTo, QueueEdges, PairsWith, Held, Exact, Observed, Account;
    var p, q := s.prods[t], s.rings[t];
    assert Account(p, q, s.graph.edges, Covered(s));
    if p.pc == Publish {
      PublishAccount(p, q, s.graph.edges, Covered(s));
    } else if |q| >= c.capacity && c.policy == Drop {
      AccountGrows(p, q, s.graph.edges, Covered(s), s.graph.edges, Covered(s'));
      NothingUnknownAccount(p, q, s.graph.edges, Covered(s'), Xchg(false));
      InFlightWasObserved(p, q, s.graph.edges, Covered(s));
    } else {
      SameAccount(p, s'.prods[t], q, s.graph.edges, Covered(s));
    }
    ProducerKeepsFlow(c, s, s', t);
  }

  /** A step of producer `t` that only moves it, and no pair with it. */
  ghost predicate Moves(s: State, s': State, t: nat)
    requires t < |s.prods|
  {
    && |s'.prods| == |s.prods|
    && s'.prods == s.prods[t := s.prods[t].(pc := s'.prods[t].pc)]
    && InTransit(s'.prods[t].pc) == InTransit(s.prods[t].pc)
    && s'.rings == s.rings && s'.graph == s.graph && s'.snapshot == s.snapshot && s'.batch == s.batch
    && s'.dropped == s.dropped && Lag(s'.worker) == Lag(s.worker)
  }

  lemma RaceMoves(s: State, s': State, t: nat)
    requires t < |s.prods| && RaceStep(s, s', t)
    ensures Moves(s, s', t)
  {
  }

  lemma CreateMoves(c: Config, s: State, s': State, t: nat)
    requires StartInv(c, s) && t < c.threads && CreateStep(s, s', t)
    ensures Moves(s, s', t)
  {
    assert Placed(s.prods[t].pc, t, s);
  }

  lemma SignalMoves(s: State, s': State, t: nat)
    requires t < |s.prods| && SignalStep(s, s', t)
    ensures Moves(s, s', t)
  {
  }

  /** The start and wakeup protocols carry no pairs. */
  lemma MoveKeepsFlow(c: Config, s: State, s': State, t: nat)
    requires Flow(c, s) && t < c.threads && Moves(s, s', t)
    ensures Flow(c, s')
  {
    hide EdgesTo, QueueEdges, PairsWith, Held, Exact, Observed, Account;
    var p, q := s.prods[t], s.rings[t];
    assert Account(p, q, s.graph.edges, Covered(s));
    SameAccount(p, s'.prods[t], q, s.graph.edges, Covered(s));
    ProducerKeepsFlow(c, s, s', t);
  }

  lemma SameAccount(p: Producer, p': Producer, q: seq<Event>, edges: set<Edge>, covered: set<Edge>)
    requires Account(p, q, edges, covered)
    requires p'.log == p.log && p'.unknown == p.unknown && InTransit(p'.pc) == InTransit(p.pc)
    ensures Account(p', q, edges, covered)
  {
  }

  lemma InFlightWasObserved(p: Producer, q: seq<Event>, edges: set<Edge>, covered: set<Edge>)
    requires Account(p, q, edges, covered) && InTransit(p.pc)
    ensures InFlight(p) <= Observed(p.log)
  {
    var init, last := p.log[..|p.log| - 1], p.log[|p.log| - 1];
    assert init + [last] == p.log;
    ObservedAppend(init, last);
  }

  lemma NoneInFlight(p: Producer)
    requires p.unknown == {}
    ensures InFlight(p) == {}
  {
  }

  // ---------------------------------------------------------------- the worker

  /** A worker step that only moves pairs on towards the graph keeps every account. */
  lemma WorkerKeepsFlow(c: Config, s: State, s': State)
    requires Flow(c, s)
    requires s'.prods == s.prods && s'.dropped == s.dropped && |s'.rings| == c.threads
    requires s.graph.edges <= s'.graph.edges
    requires forall t :: 0 <= t < c.threads && s'.rings[t] != s.rings[t] ==>
               s.rings[t] != [] && s'.rings[t] == s.rings[t][1..] && EventEdges(s.rings[t][0]) <= Covered(s')
    requires Covered(s) <= Covered(s')
    requires forall e :: e in Covered(s') && e !in Covered(s) ==> ObservedBy(Logs(s), e)
    requires s'.graph.edges == s'.snapshot + Lag(s'.worker) && Exact(s'.graph)
    ensures Flow(c, s')
  {
    hide Exact, Observed, EventEdges, InFlight, PairsWith;
    forall t | 0 <= t < c.threads
      ensures Account(s'.prods[t], s'.rings[t], s'.graph.edges, Covered(s'))
    {
      assert Account(s.prods[t], s.rings[t], s.graph.edges, Covered(s));
    }
    forall e | e in Covered(s')
      ensures ObservedBy(Logs(s'), e)
    {
      assert ObservedBy(Logs(s), e);
      ObservedByGrows(Logs(s), Logs(s'), e);
    }
  }

  lemma ScanKeepsFlow(c: Config, s: State, s': State)
    requires Flow(c, s) && ScanStep(s, s')
    ensures Flow(c, s')
  {
    hide EventEdges, Observed, Exact, EdgesTo, PairsWith;
    var ring := s.worker.ring;
    if ring < |s.rings| && s.rings[ring] != [] {
      var p, q := s.prods[ring], s.rings[ring];
      assert Account(p, q, s.graph.edges, Covered(s));
      assert EventEdges(q[0]) <= QueueEdges(q) <= Observed(p.log);
      forall e | e in Covered(s') && e !in Covered(s)
        ensures ObservedBy(Logs(s), e)
      {
        assert e in Observed(Logs(s)[ring]);
      }
    }
    WorkerKeepsFlow(c, s, s');
  }

  lemma InsertKeepsFlow(c: Config, s: State, s': State)
    requires Flow(c, s) && InsertStep(s, s')
    ensures Flow(c, s')
  {
    hide EventEdges, Observed, Exact, EdgesTo, PairsWith, Account, QueueEdges, Reaches, InsertOne;
    if s.worker.InsertBatch? && s.batch != {} {
      var e :| e in s.batch && s' == InsertOne(s, e, s.worker.final, s.worker.progress);
      InsertOneKeepsFlow(c, s, e);
    } else {
      WorkerKeepsFlow(c, s, s');
    }
  }

  lemma InsertOneKeepsFlow(c: Config, s: State, e: Edge)
    requires Flow(c, s) && s.worker.InsertBatch? && e in s.batch
    ensures Flow(c, InsertOne(s, e, s.worker.final, s.worker.progress))
  {
    hide EventEdges, Observed, Exact, EdgesTo, PairsWith, Account, QueueEdges, Reaches;
    InsertKeepsExact(s.graph, e);
    BatchHasNoLoops(c, s, e);
    assert s.batch == s.batch - {e} + {e};
    WorkerKeepsFlow(c, s, InsertOne(s, e, s.worker.final, s.worker.progress));
  }

  lemma FlagKeepsFlow(c: Config, s: State, s': State)
    requires Flow(c, s) && FlagStep(s, s')
    ensures Flow(c, s')
  {
    hide EventEdges, Observed, Exact, EdgesTo, PairsWith, Account, QueueEdges;
    WorkerKeepsFlow(c, s, s');
  }

  lemma StopKeepsFlow(c: Config, s: State, s': State)
    requires Flow(c, s) && StopStep(s, s')
    ensures Flow(c, s')
  {
    hide EventEdges, Observed, Exact, EdgesTo, PairsWith, Account, QueueEdges;
    WorkerKeepsFlow(c, s, s');
  }

  lemma BatchHasNoLoops(c: Config, s: State, e: Edge)
    requires Flow(c, s) && e in s.batch
    ensures e.0 != e.1
  {
    assert e in Covered(s);
    var t :| 0 <= t < |s.prods| && e in Observed(s.prods[t].log);
    ObservedHasNoLoops(s.prods[t].log, e);
  }

  lemma {:induction false} ObservedHasNoLoops(log: seq<Op>, e: Edge)
    requires e in Observed(log)
    ensures e.0 != e.1
  {
    if e in Observed(log[..|log| - 1]) {
      ObservedHasNoLoops(log[..|log| - 1], e);
    }
  }

  lemma NextKeepsFlow(c: Config, s: State, s': State)
    requires Flow(c, s) && StartInv(c, s) && Next(c, s, s')
    ensures Flow(c, s')
  {
    hide CollectStep, OfferStep, RaceStep, CreateStep, SignalStep, ScanStep, InsertStep, FlagStep, StopStep;
    hide Published, Account, Observed, Exact, QueueEdges, EdgesTo;
    if t :| ProducerStep(c, s, s', t) {
      if CollectStep(c, s, s', t) {
        CollectKeepsFlow(c, s, s', t);
      } else if OfferStep(c, s, s', t) {
        OfferKeepsFlow(c, s, s', t);
      } else {
        if RaceStep(s, s', t) {
          RaceMoves(s, s', t);
        } else if CreateStep(s, s', t) {
          CreateMoves(c, s, s', t);
        } else {
          SignalMoves(s, s', t);
        }
        MoveKeepsFlow(c, s, s', t);
      }
    } else if ScanStep(s, s') {
      ScanKeepsFlow(c, s, s');
    } else if InsertStep(s, s') {
      InsertKeepsFlow(c, s, s');
    } else if FlagStep(s, s') {
      FlagKeepsFlow(c, s, s');
    } else if StopStep(s, s') {
      StopKeepsFlow(c, s, s');
    } else {
      WorkerKeepsFlow(c, s, s');
    }
  }

  lemma InitFlow(c: Config, s: State)
    requires Init(c, s)
    ensures Flow(c, s)
  {
    EmptyIsExact();
    assert QueueEdges([]) == {} && Observed([]) == {};
  }

  lemma {:induction false} RunKeepsFlow(c: Config, run: seq<State>)
    requires Run(c, run)
    ensures Flow(c, run[|run| - 1]) && StartInv(c, run[|run| - 1])
  {
    hide Flow, StartInv, Init, Next;
    if |run| == 1 {
      InitFlow(c, run[0]);
      InitStart(c, run[0]);
    } else {
      RunKeepsFlow(c, run[..|run| - 1]);
      assert Next(c, run[|run| - 2], run[|run| - 2 + 1]);
      NextKeepsFlow(c, run[|run| - 2], run[|run| - 1]);
      NextKeepsStart(c, run[|run| - 2], run[|run| - 1]);
    }
  }

  // ---------------------------------------------------------------- main results

  /** Where a pair may be that is neither recorded, nor in the batch, nor given up. */
  ghost predicate Underway(s: State, e: Edge) {
    exists t :: 0 <= t < |s.prods| == |s.rings| && (e in QueueEdges(s.rings[t]) || e in InFlight(s.prods[t]))
  }

  /** At every step of every interleaving the observed pairs are exactly those in the graph, in the
      worker's batch, in a published event, in an unfinished acquisition, or given up; under Stall
      none is given up. */
  lemma Conservation(c: Config, run: seq<State>, e: Edge)
    requires Run(c, run)
    ensures var s := run[|run| - 1];
            e in AllObserved(Logs(s)) <==>
            e in s.graph.edges || e in s.batch || e in s.dropped || Underway(s, e)
    ensures c.policy == Stall ==> run[|run| - 1].dropped == {}
  {
    hide Observed, QueueEdges, EdgesTo, Exact, PairsWith, Held;
    RunKeepsFlow(c, run);
    var s := run[|run| - 1];
    InAllObserved(Logs(s), e);
    if t :| 0 <= t < |Logs(s)| && e in Observed(Logs(s)[t]) {
      assert Account(s.prods[t], s.rings[t], s.graph.edges, Covered(s));
    }
    if e in Covered(s) {
      var t :| 0 <= t < |s.prods| && e in Observed(s.prods[t].log);
      assert e in Observed(Logs(s)[t]);
    }
    if Underway(s, e) {
      var t :| 0 <= t < |s.prods| && (e in QueueEdges(s.rings[t]) || e in InFlight(s.prods[t]));
      assert Account(s.prods[t], s.rings[t], s.graph.edges, Covered(s));
      if InTransit(s.prods[t].pc) {
        InFlightWasObserved(s.prods[t], s.rings[t], s.graph.edges, Covered(s));
      } else {
        NoneInFlight(s.prods[t]);
      }
      assert e in Observed(Logs(s)[t]);
    }
  }

  /** No acquisition is unfinished, no event is queued and no drain is in progress. */
  ghost predicate Quiescent(s: State) {
    && |s.prods| == |s.rings|
    && (forall t :: 0 <= t < |s.prods| ==> s.prods[t].pc == Idle && s.prods[t].unknown == {} && s.rings[t] == [])
    && s.batch == {}
  }

  /** Under either policy the graph never invents a pair and the verdict is exact for the graph; the
      snapshot lags behind by at most the pair being published. */
  lemma GraphIsSound(c: Config, run: seq<State>)
    requires Run(c, run)
    ensures var s := run[|run| - 1];
            && s.graph.edges <= AllObserved(Logs(s))
            && (s.graph.reports != [] <==> Cyclic(s.graph.edges))
            && s.snapshot <= s.graph.edges && |s.graph.edges - s.snapshot| <= 1
  {
    RunKeepsFlow(c, run);
    var s := run[|run| - 1];
    forall e | e in s.graph.edges
      ensures e in AllObserved(Logs(s))
    {
      Conservation(c, run, e);
    }
    assert s.graph.edges - s.snapshot <= Lag(s.worker);
    if s.worker.Snapshot? {
      assert s.graph.edges - s.snapshot <= {s.worker.e};
      if s.worker.e !in s.graph.edges - s.snapshot {
        assert s.graph.edges - s.snapshot == {};
      } else {
        assert s.graph.edges - s.snapshot == {s.worker.e};
      }
    } else {
      assert s.graph.edges - s.snapshot == {};
    }
  }

  /** The asynchronous counterpart of SynchronousIsExact. */
  lemma AsynchronousIsExact(c: Config, run: seq<State>)
    requires Run(c, run) && c.policy == Stall && Quiescent(run[|run| - 1])
    ensures var s := run[|run| - 1];
            s.graph.edges == AllObserved(Logs(s)) && (s.graph.reports != [] <==> Cyclic(AllObserved(Logs(s))))
  {
    var s := run[|run| - 1];
    forall e: Edge
      ensures e in s.graph.edges <==> e in AllObserved(Logs(s))
    {
      Conservation(c, run, e);
      forall t | 0 <= t < |s.prods|
        ensures InFlight(s.prods[t]) == {} && QueueEdges(s.rings[t]) == {}
      {
        NoneInFlight(s.prods[t]);
      }
    }
    GraphIsSound(c, run);
  }

  /** Backend refinement. Take any interleaving of the synchronous backend and any interleaving of
      application threads and worker in the asynchronous one, in which the threads performed the same
      acquisitions and releases. Once both are at rest they hold the same graph, and one has reported
      a cycle exactly when the other has. */
  lemma BackendsAgree(c: Config, async: seq<State>, sync: seq<GlobalMachine.State>)
    requires Run(c, async) && c.policy == Stall && Quiescent(async[|async| - 1])
    requires GlobalMachine.Run(sync) && GlobalMachine.Quiescent(sync[|sync| - 1])
    requires Logs(async[|async| - 1]) == GlobalMachine.Logs(sync[|sync| - 1])
    ensures var a, b := async[|async| - 1], sync[|sync| - 1];
            a.graph.edges == b.graph.edges && (a.graph.reports != [] <==> b.graph.reports != [])
  {
    AsynchronousIsExact(c, async);
    GlobalMachine.SynchronousIsExact(sync);
  }

  /** From its first load to its end an acquisition keeps every pair of its own that the graph lacks
      ready to be offered, and nothing else. */
  lemma MissingPairsAreOffered(c: Config, run: seq<State>, t: nat, h: nat)
    requires Run(c, run) && t < c.threads && |run[|run| - 1].prods| == c.threads
    requires InTransit(run[|run| - 1].prods[t].pc)
    ensures var s := run[|run| - 1];
            var p := s.prods[t];
            var pair, pairs := (h, Target(p.log)), PairsWith(Holding(p.log), Target(p.log));
            && (pair in pairs && pair !in s.graph.edges ==> h in p.unknown)
            && (h in p.unknown && h != Target(p.log) ==> pair in pairs)
  {
    RunKeepsFlow(c, run);
    var s := run[|run| - 1];
    assert Account(s.prods[t], s.rings[t], s.graph.edges, Covered(s));
    assert h in s.prods[t].unknown && h != Target(s.prods[t].log) ==>
        (h, Target(s.prods[t].log)) in InFlight(s.prods[t]);
  }

  /** An acquisition is skipped only when the graph has every one of its pairs. */
  lemma SkipOnlyWhenKnown(c: Config, run: seq<State>, s': State, t: nat)
    requires Run(c, run) && t < |run[|run| - 1].prods| && ProducerStep(c, run[|run| - 1], s', t)
    requires run[|run| - 1].prods[t].pc.Collect? && t < |s'.prods| && s'.prods[t].pc.Idle?
    ensures var p := run[|run| - 1].prods[t];
            PairsWith(Holding(p.log), Target(p.log)) <= run[|run| - 1].graph.edges
  {
    RunKeepsFlow(c, run);
    var s := run[|run| - 1];
    assert Account(s.prods[t], s.rings[t], s.graph.edges, Covered(s));
    NoneInFlight(s.prods[t]);
  }

  /** What the step that ends an acquisition's transit has done with its pairs. */
  datatype Outcome = Known | Queued(ev: Event) | GivenUp

  /** Every acquisition that leaves transit has had every one of its pairs that the graph lacks either
      published in one event or, under Drop and only before a full ring, counted as dropped; without
      either, the graph had them all. What happened to a pair before, a drop included, plays no part: a
      dropped pair that is still missing is offered again by the next acquisition that observes it. */
  lemma NoPairIsSkipped(c: Config, run: seq<State>, s': State, t: nat) returns (outcome: Outcome)
    requires Run(c, run) && t < |run[|run| - 1].prods| && ProducerStep(c, run[|run| - 1], s', t)
    requires |s'.prods| == |s'.rings| == |run[|run| - 1].prods| == |run[|run| - 1].rings|
    requires InTransit(run[|run| - 1].prods[t].pc) && !InTransit(s'.prods[t].pc)
    ensures var s := run[|run| - 1];
            var pairs := PairsWith(Holding(s.prods[t].log), Target(s.prods[t].log));
            match outcome
            case Known => pairs <= s.graph.edges && s'.rings == s.rings && s'.dropped == s.dropped
            case Queued(ev) =>
              && s'.rings[t] == s.rings[t] + [ev] && s'.dropped == s.dropped
              && pairs <= s.graph.edges + EventEdges(ev) && EventEdges(ev) <= pairs
            case GivenUp =>
              && c.policy == Drop && |s.rings[t]| >= c.capacity && s'.rings == s.rings
              && pairs <= s.graph.edges + s'.dropped && s'.dropped <= s.dropped + pairs
  {
    RunKeepsFlow(c, run);
    var s := run[|run| - 1];
    var p := s.prods[t];
    assert Account(p, s.rings[t], s.graph.edges, Covered(s));
    hide EdgesTo, PairsWith, Held, Observed, QueueEdges, Flow, Exact, ProducerStep;
    TransitEnds(c, s, s', t);
    match p.pc
    case Collect(_) =>
      NoneInFlight(p);
      outcome := Known;
    case Publish =>
      outcome := Queued(Event(Target(p.log), p.unknown));
    case _ =>
      outcome := GivenUp;
  }

  /** The three steps that end it. */
  lemma TransitEnds(c: Config, s: State, s': State, t: nat)
    requires t < |s.prods| == |s.rings| && ProducerStep(c, s, s', t)
    requires t < |s'.prods| && InTransit(s.prods[t].pc) && !InTransit(s'.prods[t].pc)
    ensures var p := s.prods[t];
            match p.pc
            case Collect(_) => p.unknown == {} && s' == Finish(s, t, Idle)
            case Publish => s' == PublishEvent(s, t)
            case CheckFull =>
              && c.policy == Drop && |s.rings[t]| >= c.capacity
              && s' == Finish(s, t, Xchg(false)).(dropped := s.dropped + InFlight(p))
            case _ => false
  {
    hide Begin, Held, EdgesTo;
  }
}
