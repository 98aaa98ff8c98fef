/** The synchronous backend under concurrency. The skip test reads the predecessor bits without the
    metadata lock, one held lock at a time; every insertion is one atomic step under that lock. */
module GlobalMachine {
  import opened Digraph
  import opened Reports
  import opened Traces

  /** `Checking(i)`: about to test held lock `i`; `Adding(i)`: about to insert held lock `i`. */
  datatype Pc = Idle | Checking(i: nat) | Adding(i: nat)

  datatype Thread = Thread(pc: Pc, log: seq<Op>)

  datatype State = State(graph: LockGraph, threads: seq<Thread>)

  ghost predicate Init(s: State) {
    s.graph == EMPTY_GRAPH && forall t :: 0 <= t < |s.threads| ==> s.threads[t] == Thread(Idle, [])
  }

  ghost function Update(s: State, t: nat, g: LockGraph, pc: Pc): State
    requires t < |s.threads|
  {
    State(g, s.threads[t := s.threads[t].(pc := pc)])
  }

  ghost function Begin(s: State, t: nat, op: Op): State
    requires t < |s.threads|
  {
    var th := s.threads[t];
    var pc := if op.Acquire? && Held(th.log) != [] then Checking(0) else Idle;
    State(s.graph, s.threads[t := Thread(pc, th.log + [op])])
  }

  /** One atomic step of thread `t`. */
  ghost predicate Step(s: State, s': State, t: nat) {
    t < |s.threads| &&
    var th := s.threads[t];
    match th.pc
    case Idle => exists op :: s' == Begin(s, t, op)
    case Checking(i) =>
      th.log != [] &&
      if i >= |Holding(th.log)| then s' == Update(s, t, s.graph, Idle)
      else if Holding(th.log)[i] == Target(th.log) || (Holding(th.log)[i], Target(th.log)) in s.graph.edges then
        s' == Update(s, t, s.graph, Checking(i + 1))
      else s' == Update(s, t, s.graph, Adding(0))
    case Adding(i) =>
      th.log != [] &&
      if i >= |Holding(th.log)| then s' == Update(s, t, s.graph, Idle)
      else s' == Update(s, t, Insert(s.graph, (Holding(th.log)[i], Target(th.log))), Adding(i + 1))
  }

  ghost predicate Next(s: State, s': State) {
    exists t :: Step(s, s', t)
  }

  ghost predicate Run(run: seq<State>) {
    |run| > 0 && Init(run[0]) && forall i :: 0 <= i < |run| - 1 ==> Next(run[i], run[i + 1])
  }

  ghost function Logs(s: State): seq<seq<Op>> {
    seq(|s.threads|, t requires 0 <= t < |s.threads| => s.threads[t].log)
  }

  ghost predicate Quiescent(s: State) {
    forall t :: 0 <= t < |s.threads| ==> s.threads[t].pc == Idle
  }

  // ---------------------------------------------------------------- invariant

  /** What a thread still owes the graph lies beyond its position in the held stack. */
  ghost predicate Paid(th: Thread, edges: set<Edge>) {
    match th.pc
    case Idle => Observed(th.log) <= edges
    case _ =>
      && th.log != [] && th.log[|th.log| - 1].Acquire?
      && Observed(th.log[..|th.log| - 1]) <= edges
      && th.pc.i <= |Holding(th.log)|
      && PairsWith(Holding(th.log)[..th.pc.i], Target(th.log)) <= edges
  }

  ghost predicate Inv(s: State) {
    && Exact(s.graph)
    && (forall t :: 0 <= t < |s.threads| ==> Paid(s.threads[t], s.graph.edges))
    && (forall e :: e in s.graph.edges ==> ObservedBy(Logs(s), e))
  }

  lemma BeginKeepsInv(s: State, t: nat, op: Op)
    requires Inv(s) && t < |s.threads| && s.threads[t].pc == Idle
    ensures Inv(Begin(s, t, op))
  {
    var th, s' := s.threads[t], Begin(s, t, op);
    assert Paid(th, s.graph.edges);
    ObservedAppend(th.log, op);
    assert (th.log + [op])[..|th.log|] == th.log;
    forall e | e in s.graph.edges
      ensures ObservedBy(Logs(s'), e)
    {
      ObservedByGrows(Logs(s), Logs(s'), e);
    }
  }

  /** A thread moves within its acquisition, perhaps recording pairs it observed. */
  lemma UpdateKeepsInv(s: State, t: nat, g: LockGraph, pc: Pc)
    requires Inv(s) && t < |s.threads| && Exact(g)
    requires s.graph.edges <= g.edges <= s.graph.edges + Observed(s.threads[t].log)
    requires Paid(s.threads[t].(pc := pc), g.edges)
    ensures Inv(Update(s, t, g, pc))
  {
    hide Exact, Observed, Held, PairsWith;
    var s' := Update(s, t, g, pc);
    forall u | 0 <= u < |s'.threads|
      ensures Paid(s'.threads[u], g.edges)
    {
      assert Paid(s.threads[u], s.graph.edges);
    }
    forall e | e in g.edges
      ensures ObservedBy(Logs(s'), e)
    {
      if e in s.graph.edges {
        ObservedByGrows(Logs(s), Logs(s'), e);
      } else {
        assert e in Observed(Logs(s')[t]);
      }
    }
  }

  /** A test only moves past a pair that is already recorded. */
  lemma CheckKeepsInv(s: State, s': State, t: nat)
    requires Inv(s) && Step(s, s', t) && s.threads[t].pc.Checking?
    ensures Inv(s')
  {
    hide Exact, Observed, Held, PairsWith, Inv;
    var th := s.threads[t];
    var i, held := th.pc.i, Holding(th.log);
    PaidByInv(s, t);
    if i >= |held| {
      assert held[..i] == held;
      WholeAcquire(th);
      UpdateKeepsInv(s, t, s.graph, Idle);
    } else if held[i] == Target(th.log) || (held[i], Target(th.log)) in s.graph.edges {
      OnePaid(held, i, Target(th.log));
      UpdateKeepsInv(s, t, s.graph, Checking(i + 1));
    } else {
      NonePaid(held, Target(th.log));
      UpdateKeepsInv(s, t, s.graph, Adding(0));
    }
  }

  lemma AddKeepsInv(s: State, s': State, t: nat)
    requires Inv(s) && Step(s, s', t) && s.threads[t].pc.Adding?
    ensures Inv(s')
  {
    hide Exact, Observed, Held, PairsWith, Inv, Reaches;
    var th := s.threads[t];
    var i, held := th.pc.i, Holding(th.log);
    PaidByInv(s, t);
    WholeAcquire(th);
    if i >= |held| {
      assert held[..i] == held;
      UpdateKeepsInv(s, t, s.graph, Idle);
    } else {
      OnePaid(held, i, Target(th.log));
      InsertKeepsExact(s.graph, (held[i], Target(th.log)));
      UpdateKeepsInv(s, t, Insert(s.graph, (held[i], Target(th.log))), Adding(i + 1));
    }
  }

  lemma PaidByInv(s: State, t: nat)
    requires Inv(s) && t < |s.threads|
    ensures Paid(s.threads[t], s.graph.edges) && Exact(s.graph)
  {
  }

  lemma NonePaid(held: seq<nat>, target: nat)
    ensures PairsWith(held[..0], target) == {}
  {
  }

  /** One more held lock is one more pair, unless it is the target itself. */
  lemma OnePaid(held: seq<nat>, i: nat, target: nat)
    requires i < |held|
    ensures PairsWith(held[..i + 1], target) ==
            PairsWith(held[..i], target) + if held[i] == target then {} else {(held[i], target)}
    ensures PairsWith(held[..i + 1], target) <= PairsWith(held, target)
  {
    assert held[..i + 1] == held[..i] + [held[i]];
    PairsWithAppend(held[..i], held[i], target);
  }

  /** A pending acquisition observes the pairs of its held stack with its target. */
  lemma WholeAcquire(th: Thread)
    requires th.log != [] && th.log[|th.log| - 1].Acquire?
    ensures Observed(th.log) == Observed(th.log[..|th.log| - 1]) + PairsWith(Holding(th.log), Target(th.log))
  {
  }

  lemma StepKeepsInv(s: State, s': State, t: nat)
    requires Inv(s) && Step(s, s', t)
    ensures Inv(s')
  {
    match s.threads[t].pc
    case Idle =>
      var op :| s' == Begin(s, t, op);
      BeginKeepsInv(s, t, op);
    case Checking(_) => CheckKeepsInv(s, s', t);
    case Adding(_) => AddKeepsInv(s, s', t);
  }

  lemma {:induction false} RunKeepsInv(run: seq<State>)
    requires Run(run)
    ensures Inv(run[|run| - 1])
  {
    if |run| == 1 {
      EmptyIsExact();
    } else {
      var init := run[..|run| - 1];
      RunKeepsInv(init);
      assert Next(run[|run| - 2], run[|run| - 2 + 1]);
      var t :| Step(run[|run| - 2], run[|run| - 1], t);
      StepKeepsInv(run[|run| - 2], run[|run| - 1], t);
    }
  }

  /** Whenever every acquisition has finished, the synchronous graph is exactly the set of observed
      pairs, and it has reported at least once exactly when those pairs form a cycle. */
  lemma SynchronousIsExact(run: seq<State>)
    requires Run(run) && Quiescent(run[|run| - 1])
    ensures var s := run[|run| - 1];
            s.graph.edges == AllObserved(Logs(s)) && (s.graph.reports != [] <==> Cyclic(AllObserved(Logs(s))))
  {
    RunKeepsInv(run);
    var s := run[|run| - 1];
    forall e: Edge
      ensures e in s.graph.edges <==> e in AllObserved(Logs(s))
    {
      InAllObserved(Logs(s), e);
      if ObservedBy(Logs(s), e) {
        var t :| 0 <= t < |s.threads| && e in Observed(s.threads[t].log);
        assert e in Observed(Logs(s)[t]);
      }
      if t :| 0 <= t < |Logs(s)| && e in Observed(Logs(s)[t]) {
        assert Paid(s.threads[t], s.graph.edges);
      }
    }
  }

  // ---------------------------------------------------------------- the report log

  /** One insertion at most per step, and only of the pair that is due. */
  lemma GraphChange(s: State, s': State, t: nat)
    requires Step(s, s', t)
    ensures var th := s.threads[t];
            s'.graph == s.graph ||
            (th.pc.Adding? && th.pc.i < |Holding(th.log)| &&
             s'.graph == Insert(s.graph, (Holding(th.log)[th.pc.i], Target(th.log))))
  {
    hide Insert, Held;
    if s.threads[t].pc == Idle {
      var op :| s' == Begin(s, t, op);
    }
  }

  /** In every reachable state graph and log are those of inserting the recorded pairs one after the other,
      each once; so every report is for a recorded pair that closes a cycle, one for each insertion that
      found its target already reaching its source. */
  lemma SynchronousLogIsExact(run: seq<State>) returns (es: seq<Edge>)
    requires Run(run)
    ensures BuiltBy(run[|run| - 1].graph, es)
    ensures |run[|run| - 1].graph.reports| == ReportsFor({}, es) && LogsClosingPairs(run[|run| - 1].graph)
  {
    es := InsertionOrder(run);
    InsertSeqLaws(es);
  }

  lemma {:induction false} InsertionOrder(run: seq<State>) returns (es: seq<Edge>)
    requires Run(run)
    ensures BuiltBy(run[|run| - 1].graph, es)
  {
    hide Step, BuiltBy, Insert;
    var n := |run| - 1;
    if n == 0 {
      es := [];
      BuiltByNothing();
    } else {
      es := InsertionOrder(run[..n]);
      assert Next(run[n - 1], run[n - 1 + 1]);
      var t: nat :| Step(run[n - 1], run[n], t);
      StepInThreads(run[n - 1], run[n], t);
      GraphChange(run[n - 1], run[n], t);
      if run[n].graph != run[n - 1].graph {
        var th := run[n - 1].threads[t];
        var e := (Holding(th.log)[th.pc.i], Target(th.log));
        InsertKnown(run[n - 1].graph, e);
        BuiltByOneMore(run[n - 1].graph, es, e);
        es := es + [e];
      }
    }
  }

  lemma StepInThreads(s: State, s': State, t: nat)
    requires Step(s, s', t)
    ensures t < |s.threads|
  {
  }

  lemma InsertKnown(g: LockGraph, e: Edge)
    ensures e in g.edges || e.0 == e.1 ==> Insert(g, e) == g
  {
  }

  /** The acquisition of thread `t` that begins at `from` is still going on at the end. */
  ghost predicate SameAcquisition(run: seq<State>, from: nat, t: nat) {
    && from < |run| && t < |run[from].threads|
    && (forall j :: from <= j < |run| ==>
          t < |run[j].threads| && !run[j].threads[t].pc.Idle? && run[j].threads[t].log == run[from].threads[t].log)
    && run[from].threads[t].pc == Checking(0)
  }

  lemma GraphGrows(s: State, s': State, t: nat)
    requires Step(s, s', t)
    ensures s.graph.edges <= s'.graph.edges && |s'.threads| == |s.threads|
    ensures forall u :: 0 <= u < |s.threads| && u != t ==> s'.threads[u] == s.threads[u]
  {
    hide Held;
    if s.threads[t].pc == Idle {
      var op :| s' == Begin(s, t, op);
    }
  }

  /** An acquisition all of whose pairs are recorded when its test begins only tests; it never takes the
      metadata lock. */
  lemma {:induction false} KnownAcquisitionOnlyTests(run: seq<State>, from: nat, t: nat)
    requires Run(run) && SameAcquisition(run, from, t)
    requires var th := run[from].threads[t]; PairsWith(Holding(th.log), Target(th.log)) <= run[from].graph.edges
    ensures run[|run| - 1].threads[t].pc.Checking? && run[from].graph.edges <= run[|run| - 1].graph.edges
  {
    hide Held;
    var n := |run| - 1;
    if from < n {
      KnownAcquisitionOnlyTests(run[..n], from, t);
      assert Next(run[n - 1], run[n - 1 + 1]);
      var u: nat :| Step(run[n - 1], run[n], u);
      GraphGrows(run[n - 1], run[n], u);
      if u == t {
        var th := run[n - 1].threads[t];
        KnownPair(Holding(th.log), th.pc.i, Target(th.log), run[n - 1].graph.edges);
      }
    }
  }

  lemma KnownPair(held: seq<nat>, i: nat, target: nat, edges: set<Edge>)
    requires PairsWith(held, target) <= edges
    ensures i < |held| ==> held[i] == target || (held[i], target) in edges
  {
    assert i < |held| && held[i] != target ==> (held[i], target) in PairsWith(held, target);
  }

  // ---------------------------------------------------------------- one acquisition alone

  /** Thread `t` takes all the steps. */
  ghost predicate Alone(states: seq<State>, t: nat) {
    |states| > 0 && forall i :: 0 <= i < |states| - 1 ==> Step(states[i], states[i + 1], t)
  }

  lemma AloneBefore(s: State, states: seq<State>, t: nat)
    requires Alone(states, t) && Step(s, states[0], t)
    ensures Alone([s] + states, t)
  {
    hide Step;
    var longer := [s] + states;
    forall i | 0 <= i < |longer| - 1
      ensures Step(longer[i], longer[i + 1], t)
    {
      if i > 0 {
        assert Step(states[i - 1], states[i - 1 + 1], t);
      }
    }
  }

  /** The pairs of an acquisition in the order of the held stack. */
  ghost function HeldPairs(held: seq<nat>, target: nat): seq<Edge> {
    seq(|held|, i requires 0 <= i < |held| => (held[i], target))
  }

  lemma {:induction false} InsertSeqFirst(g: LockGraph, e: Edge, es: seq<Edge>)
    ensures InsertSeq(g, [e] + es) == InsertSeq(Insert(g, e), es)
  {
    hide Insert;
    if es == [] {
      assert ([e] + es)[..0] == [] && [e] + es == [e];
      assert InsertSeq(g, [e]) == Insert(InsertSeq(g, []), e);
    } else {
      var init := es[..|es| - 1];
      InsertSeqFirst(g, e, init);
      assert ([e] + es)[..|es|] == [e] + init;
    }
  }

  lemma {:induction false} InsertKnownPairs(g: LockGraph, es: seq<Edge>)
    requires forall e :: e in es ==> e in g.edges || e.0 == e.1
    ensures InsertSeq(g, es) == g
  {
    if es != [] {
      var init := es[..|es| - 1];
      assert es == init + [es[|es| - 1]];
      InsertKnownPairs(g, init);
    }
  }

  lemma {:induction false} AddAlone(s: State, t: nat) returns (states: seq<State>)
    requires t < |s.threads| && s.threads[t].pc.Adding? && s.threads[t].log != []
    requires s.threads[t].pc.i <= |Holding(s.threads[t].log)|
    ensures |states| > 0 && Alone(states, t) && states[0] == s
    ensures var th := s.threads[t];
            var pairs := HeldPairs(Holding(th.log), Target(th.log));
            states[|states| - 1] == Update(s, t, InsertSeq(s.graph, pairs[th.pc.i..]), Idle)
    decreases |Holding(s.threads[t].log)| - s.threads[t].pc.i
  {
    hide Insert, Held;
    var th := s.threads[t];
    var i, held := th.pc.i, Holding(th.log);
    var pairs := HeldPairs(held, Target(th.log));
    if i == |held| {
      assert pairs[i..] == [];
      states := [s, Update(s, t, s.graph, Idle)];
    } else {
      var s' := Update(s, t, Insert(s.graph, pairs[i]), Adding(i + 1));
      var rest := AddAlone(s', t);
      assert pairs[i..] == [pairs[i]] + pairs[i + 1..];
      InsertSeqFirst(s.graph, pairs[i], pairs[i + 1..]);
      AloneBefore(s, rest, t);
      states := [s] + rest;
    }
  }

  lemma {:induction false} CheckAlone(s: State, t: nat) returns (states: seq<State>)
    requires t < |s.threads| && s.threads[t].pc.Checking? && s.threads[t].log != []
    requires var th := s.threads[t];
             && th.pc.i <= |Holding(th.log)|
             && forall k :: 0 <= k < th.pc.i ==>
                  var e := HeldPairs(Holding(th.log), Target(th.log))[k]; e in s.graph.edges || e.0 == e.1
    ensures |states| > 0 && Alone(states, t) && states[0] == s
    ensures var th := s.threads[t];
            states[|states| - 1] ==
            Update(s, t, InsertSeq(s.graph, HeldPairs(Holding(th.log), Target(th.log))), Idle)
    decreases |Holding(s.threads[t].log)| - s.threads[t].pc.i
  {
    hide Insert, Held;
    var th := s.threads[t];
    var i, held := th.pc.i, Holding(th.log);
    var pairs := HeldPairs(held, Target(th.log));
    if i == |held| {
      InsertKnownPairs(s.graph, pairs);
      states := [s, Update(s, t, s.graph, Idle)];
    } else if held[i] == Target(th.log) || pairs[i] in s.graph.edges {
      var rest := CheckAlone(Update(s, t, s.graph, Checking(i + 1)), t);
      AloneBefore(s, rest, t);
      states := [s] + rest;
    } else {
      var rest := AddAlone(Update(s, t, s.graph, Adding(0)), t);
      assert pairs[0..] == pairs;
      AloneBefore(s, rest, t);
      states := [s] + rest;
    }
  }

  /** One acquisition whose thread runs alone: graph and log are those of inserting its pairs in the order
      of the held stack, whether or not the skip test let it through. */
  lemma AcquireAlone(s: State, t: nat, lock: nat) returns (states: seq<State>)
    requires t < |s.threads| && s.threads[t].pc == Idle
    ensures |states| > 0 && Alone(states, t) && states[0] == s
    ensures var th := s.threads[t];
            states[|states| - 1] ==
            State(InsertSeq(s.graph, HeldPairs(Held(th.log), lock)),
                  s.threads[t := Thread(Idle, th.log + [Acquire(lock)])])
  {
    hide Insert, Held;
    var th := s.threads[t];
    var s' := Begin(s, t, Acquire(lock));
    assert (th.log + [Acquire(lock)])[..|th.log|] == th.log;
    assert Step(s, s', t);
    if Held(th.log) == [] {
      assert HeldPairs(Held(th.log), lock) == [];
      states := [s, s'];
    } else {
      var rest := CheckAlone(s', t);
      AloneBefore(s, rest, t);
      states := [s] + rest;
    }
  }

  /** A release only shortens the held stack. */
  lemma ReleaseAlone(s: State, t: nat, lock: nat)
    requires t < |s.threads| && s.threads[t].pc == Idle
    ensures Step(s, State(s.graph, s.threads[t := Thread(Idle, s.threads[t].log + [Release(lock)])]), t)
  {
    assert Step(s, Begin(s, t, Release(lock)), t);
  }
}
