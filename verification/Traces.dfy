/** What a program does to the detector, thread by thread, and the lock order it exhibits. Both
    backends are compared on the same traces. */
module Traces {
  import opened Digraph
  import opened HeldStack
  import opened Reports

  datatype Op = Acquire(lock: nat) | Release(lock: nat)

  /** The locks held after a trace, oldest first. */
  ghost function Held(log: seq<Op>): seq<nat> {
    if log == [] then []
    else
      match log[|log| - 1]
      case Acquire(lock) => Held(log[..|log| - 1]) + [lock]
      case Release(lock) => RemoveTop(Held(log[..|log| - 1]), lock)
  }

  /** Every (held, new) pair of a trace. */
  ghost function Observed(log: seq<Op>): set<Edge> {
    if log == [] then {}
    else
      Observed(log[..|log| - 1]) +
      match log[|log| - 1]
      case Acquire(lock) => PairsWith(Held(log[..|log| - 1]), lock)
      case Release(_) => {}
  }

  lemma ObservedAppend(log: seq<Op>, op: Op)
    ensures Observed(log + [op]) == Observed(log) + if op.Acquire? then PairsWith(Held(log), op.lock) else {}
  {
    assert (log + [op])[..|log|] == log;
  }

  /** The lock of the last operation; meaningful inside an acquisition. */
  ghost function Target(log: seq<Op>): nat {
    if log != [] then log[|log| - 1].lock else 0
  }

  /** The locks held before the last operation. */
  ghost function Holding(log: seq<Op>): seq<nat> {
    if log != [] then Held(log[..|log| - 1]) else []
  }

  /** Some thread has observed the pair. */
  ghost predicate ObservedBy(logs: seq<seq<Op>>, e: Edge) {
    exists t :: 0 <= t < |logs| && e in Observed(logs[t])
  }

  lemma ObservedByGrows(logs: seq<seq<Op>>, logs': seq<seq<Op>>, e: Edge)
    requires ObservedBy(logs, e) && |logs'| == |logs|
    requires forall t :: 0 <= t < |logs| ==> Observed(logs[t]) <= Observed(logs'[t])
    ensures ObservedBy(logs', e)
  {
    var t :| 0 <= t < |logs| && e in Observed(logs[t]);
    assert e in Observed(logs'[t]);
  }

  /** Every pair of a family of traces. */
  ghost function AllObserved(logs: seq<seq<Op>>): set<Edge> {
    if logs == [] then {} else AllObserved(logs[..|logs| - 1]) + Observed(logs[|logs| - 1])
  }

  lemma {:induction false} InAllObserved(logs: seq<seq<Op>>, e: Edge)
    ensures e in AllObserved(logs) <==> ObservedBy(logs, e)
  {
    if logs != [] {
      var init := logs[..|logs| - 1];
      InAllObserved(init, e);
      if t :| 0 <= t < |logs| && e in Observed(logs[t]) {
        assert t < |init| ==> e in Observed(init[t]);
      }
      if t :| 0 <= t < |init| && e in Observed(init[t]) {
        assert e in Observed(logs[t]);
      }
    }
  }

  // ------------------------------------------- the abstract graph with its report log

  /** The recorded pairs, and the pair each report was issued for. */
  datatype LockGraph = LockGraph(edges: set<Edge>, reports: seq<Edge>)

  const EMPTY_GRAPH := LockGraph({}, [])

  /** Recording one pair: what AddEdgeAndCheckCycle and AddEdgeIfNew do to graph and log. */
  ghost function Insert(g: LockGraph, e: Edge): LockGraph {
    if e.0 == e.1 || e in g.edges then g
    else LockGraph(g.edges + {e}, if Reaches(g.edges, e.1, e.0) then g.reports + [e] else g.reports)
  }

  /** A backend's recorded pairs and report log, seen abstractly. */
  ghost predicate Abstracts(g: LockGraph, sites: Sites, log: seq<Report>) {
    && g.edges == sites.Keys && |g.reports| == |log|
    && forall i :: 0 <= i < |log| ==> g.reports[i] == (log[i].from, log[i].to)
  }

  /** What AddEdgeAndCheckCycle and AddEdgeIfNew promise is, abstractly, one Insert. */
  lemma AddEdgeIsInsert(g: LockGraph, sites: Sites, log: seq<Report>, e: Edge, info: EdgeInfo, sites': Sites,
                        log': seq<Report>)
    requires Abstracts(g, sites, log)
    requires sites' == Learn(sites, e, info) && LogsCycle(log, log', sites, e, info)
    ensures Abstracts(Insert(g, e), sites', log')
  {
    hide Reaches, IsWitness;
    if e.0 != e.1 && e !in sites && Reaches(sites.Keys, e.1, e.0) {
      assert forall i :: 0 <= i < |log| ==> log'[i] == log'[..|log|][i];
    }
  }

  /** There is a report exactly when the recorded pairs form a cycle. */
  ghost predicate Exact(g: LockGraph) {
    g.reports != [] <==> Cyclic(g.edges)
  }

  lemma InsertKeepsExact(g: LockGraph, e: Edge)
    requires Exact(g)
    ensures Exact(Insert(g, e))
  {
    if e.0 != e.1 {
      AddEdgeCyclic(g.edges, e.0, e.1);
    }
  }

  lemma EmptyIsExact()
    ensures Exact(EMPTY_GRAPH)
  {
    NoEdgesNoCycle();
  }

  // ---------------------------------------------------------------- several insertions

  /** The graph after inserting pairs in order. */
  ghost function InsertSeq(g: LockGraph, es: seq<Edge>): LockGraph {
    if es == [] then g else Insert(InsertSeq(g, es[..|es| - 1]), es[|es| - 1])
  }

  lemma InsertSeqStep(g: LockGraph, es: seq<Edge>, e: Edge)
    ensures InsertSeq(g, es + [e]) == Insert(InsertSeq(g, es), e)
  {
    assert (es + [e])[..|es|] == es;
  }

  lemma {:induction false} InsertSeqKeepsExact(g: LockGraph, es: seq<Edge>)
    requires Exact(g)
    ensures Exact(InsertSeq(g, es))
  {
    hide Exact;
    if es != [] {
      InsertSeqKeepsExact(g, es[..|es| - 1]);
      InsertKeepsExact(InsertSeq(g, es[..|es| - 1]), es[|es| - 1]);
    }
  }

  /** Each of the pairs once, none of them a lock with itself. */
  ghost predicate Lists(es: seq<Edge>, edges: set<Edge>) {
    && (forall i, j :: 0 <= i < j < |es| ==> es[i] != es[j])
    && (forall e :: e in es <==> e in edges)
    && (forall e :: e in edges ==> e.0 != e.1)
  }

  /** Graph and log are those of inserting the recorded pairs one after the other, each once. */
  ghost predicate BuiltBy(g: LockGraph, es: seq<Edge>) {
    Lists(es, g.edges) && InsertSeq(EMPTY_GRAPH, es) == g
  }

  lemma BuiltByNothing()
    ensures BuiltBy(EMPTY_GRAPH, [])
  {
  }

  lemma BuiltByOneMore(g: LockGraph, es: seq<Edge>, e: Edge)
    requires BuiltBy(g, es) && e !in g.edges && e.0 != e.1
    ensures BuiltBy(Insert(g, e), es + [e])
  {
    hide Reaches;
    InsertSeqStep(EMPTY_GRAPH, es, e);
  }

  /** Every logged pair is recorded and lies on a cycle: its second lock reaches its first. */
  ghost predicate LogsClosingPairs(g: LockGraph) {
    forall r :: r in g.reports ==> r in g.edges && Reaches(g.edges, r.1, r.0)
  }

  /** There are as many reports as insertions that found their target already reaching their source, and
      each is for the pair that was being inserted. */
  lemma {:induction false} InsertSeqLaws(es: seq<Edge>)
    ensures var g := InsertSeq(EMPTY_GRAPH, es);
            && g.edges == InsertAll({}, es) && |g.reports| == ReportsFor({}, es)
            && LogsClosingPairs(g) && forall r :: r in g.reports ==> r in es
  {
    if es != [] {
      var init, e := es[..|es| - 1], es[|es| - 1];
      InsertSeqLaws(init);
      var g, g' := InsertSeq(EMPTY_GRAPH, init), InsertSeq(EMPTY_GRAPH, es);
      assert es == init + [e];
      forall r | r in g'.reports
        ensures r in g'.edges && Reaches(g'.edges, r.1, r.0) && r in es
      {
        if r in g.reports {
          ReachesMonotone(g.edges, g'.edges, r.1, r.0);
        } else {
          ReachesMonotone(g.edges, g'.edges, e.1, e.0);
        }
      }
    }
  }
}
