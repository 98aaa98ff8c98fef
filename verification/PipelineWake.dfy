/** The wakeup protocol: the worker never sleeps through an event, a producer on a full ring never waits
    for a sleeper nobody will wake, and two moves of wakers always end the sleep. */
module PipelineWake {
  import opened Traces
  import opened Pipeline
  import opened PipelineStart

  /** Between clearing the pending flag and the end of the sleep that may follow. */
  ghost predicate AfterClear(w: WorkerPc) {
    (w.Scan? && w.final) || (w.InsertBatch? && w.final) || (w.Snapshot? && w.final) ||
    w.CheckStop? || w.CheckEmpty? || w.Sleep?
  }

  /** Ring `ring` has been found empty since the pending flag was cleared. */
  ghost predicate Scanned(w: WorkerPc, ring: nat) {
    AfterClear(w) && (w.Scan? ==> ring < w.ring)
  }

  ghost predicate SomePost(s: State) {
    exists t :: 0 <= t < |s.prods| && s.prods[t].pc.Post?
  }

  /** Anything found in a ring that was empty arrived since, and its producer has yet to exchange the
      pending flag unless the flag is up again; and a raised flag means a post, landed or to come. */
  ghost predicate WakeInv(c: Config, s: State) {
    && |s.prods| == |s.rings| == c.threads
    && (forall t :: 0 <= t < c.threads && Scanned(s.worker, t) && s.rings[t] != [] ==> s.prods[t].pc.Xchg? || s.pending)
    && (AfterClear(s.worker) && s.pending ==> s.sem > 0 || SomePost(s))
  }

  lemma KeepPost(s: State, s': State, t: nat)
    requires SomePost(s) && t < |s.prods| == |s'.prods|
    requires forall u :: 0 <= u < |s.prods| && u != t ==> s'.prods[u] == s.prods[u]
    requires s.prods[t].pc.Post? ==> s'.prods[t].pc.Post?
    ensures SomePost(s')
  {
    var u :| 0 <= u < |s.prods| && s.prods[u].pc.Post?;
    assert s'.prods[u].pc.Post?;
  }

  /** Steps of one producer that touch neither flag nor semaphore. */
  lemma QuietKeepsWake(c: Config, s: State, s': State, t: nat)
    requires WakeInv(c, s) && t < c.threads == |s'.prods| == |s'.rings|
    requires forall u :: 0 <= u < c.threads && u != t ==> s'.prods[u] == s.prods[u] && s'.rings[u] == s.rings[u]
    requires !s.prods[t].pc.Xchg? && !s.prods[t].pc.Post?
    requires s'.rings[t] == s.rings[t] || s'.prods[t].pc.Xchg?
    requires s'.worker == s.worker && s'.pending == s.pending && s'.sem == s.sem
    ensures WakeInv(c, s')
  {
    if SomePost(s) {
      KeepPost(s, s', t);
    }
  }

  lemma CollectKeepsWake(c: Config, s: State, s': State, t: nat)
    requires WakeInv(c, s) && t < c.threads && CollectStep(c, s, s', t)
    ensures WakeInv(c, s')
  {
    hide WakeInv, Held, EdgesTo;
    WakeShape(c, s);
    if s.prods[t].pc == Idle {
      var op :| s' == Begin(s, t, op);
    }
    QuietKeepsWake(c, s, s', t);
  }

  lemma WakeShape(c: Config, s: State)
    requires WakeInv(c, s)
    ensures |s.prods| == |s.rings| == c.threads
  {
  }

  lemma OfferKeepsWake(c: Config, s: State, s': State, t: nat)
    requires WakeInv(c, s) && t < c.threads && OfferStep(c, s, s', t)
    ensures WakeInv(c, s')
  {
    hide EdgesTo;
    QuietKeepsWake(c, s, s', t);
  }

  lemma RaceKeepsWake(c: Config, s: State, s': State, t: nat)
    requires WakeInv(c, s) && t < c.threads && RaceStep(s, s', t)
    ensures WakeInv(c, s')
  {
    hide WakeInv;
    WakeShape(c, s);
    QuietKeepsWake(c, s, s', t);
  }

  /** The winner's stores happen before there is a worker. */
  lemma CreateKeepsWake(c: Config, s: State, s': State, t: nat)
    requires WakeInv(c, s) && StartInv(c, s) && t < c.threads && CreateStep(s, s', t)
    ensures WakeInv(c, s')
  {
    assert Placed(s.prods[t].pc, t, s);
  }

  lemma SignalKeepsWake(c: Config, s: State, s': State, t: nat)
    requires WakeInv(c, s) && t < c.threads && SignalStep(s, s', t)
    ensures WakeInv(c, s')
  {
    if s.prods[t].pc.Xchg? {
      if s.pending && SomePost(s) {
        KeepPost(s, s', t);
      } else if !s.pending {
        assert s'.prods[t].pc.Post?;
      }
    }
  }

  lemma ScanKeepsWake(c: Config, s: State, s': State)
    requires WakeInv(c, s) && ScanStep(s, s')
    ensures WakeInv(c, s')
  {
    hide EventEdges;
  }

  lemma InsertKeepsWake(c: Config, s: State, s': State)
    requires WakeInv(c, s) && InsertStep(s, s')
    ensures WakeInv(c, s')
  {
  }

  lemma FlagKeepsWake(c: Config, s: State, s': State)
    requires WakeInv(c, s) && FlagStep(s, s')
    ensures WakeInv(c, s')
  {
  }

  lemma StopKeepsWake(c: Config, s: State, s': State)
    requires WakeInv(c, s) && StopStep(s, s')
    ensures WakeInv(c, s')
  {
  }

  lemma NextKeepsWake(c: Config, s: State, s': State)
    requires WakeInv(c, s) && StartInv(c, s) && Next(c, s, s')
    ensures WakeInv(c, s')
  {
    hide CollectStep, OfferStep, RaceStep, CreateStep, SignalStep, ScanStep, InsertStep, FlagStep, StopStep, Published;
    if t :| ProducerStep(c, s, s', t) {
      if CollectStep(c, s, s', t) {
        CollectKeepsWake(c, s, s', t);
      } else if OfferStep(c, s, s', t) {
        OfferKeepsWake(c, s, s', t);
      } else if RaceStep(s, s', t) {
        RaceKeepsWake(c, s, s', t);
      } else if CreateStep(s, s', t) {
        CreateKeepsWake(c, s, s', t);
      } else {
        SignalKeepsWake(c, s, s', t);
      }
    } else if ScanStep(s, s') {
      ScanKeepsWake(c, s, s');
    } else if InsertStep(s, s') {
      InsertKeepsWake(c, s, s');
    } else if FlagStep(s, s') {
      FlagKeepsWake(c, s, s');
    } else if StopStep(s, s') {
      StopKeepsWake(c, s, s');
    }
  }

  lemma {:induction false} RunKeepsWake(c: Config, run: seq<State>)
    requires Run(c, run)
    ensures WakeInv(c, run[|run| - 1])
  {
    hide WakeInv, StartInv, Next;
    if |run| == 1 {
      InitWake(c, run[0]);
    } else {
      RunKeepsWake(c, run[..|run| - 1]);
      WorkerStartsOnce(c, run[..|run| - 1]);
      assert Next(c, run[|run| - 2], run[|run| - 2 + 1]);
      NextKeepsWake(c, run[|run| - 2], run[|run| - 1]);
    }
  }

  lemma InitWake(c: Config, s: State)
    requires Init(c, s)
    ensures WakeInv(c, s)
  {
  }

  // ---------------------------------------------------------------- main results

  /** Somebody's very next step is a post, or an exchange that will call for one. */
  ghost predicate WakerAt(s: State, t: nat) {
    t < |s.prods| && (s.prods[t].pc.Post? || (s.prods[t].pc.Xchg? && !s.pending))
  }

  ghost predicate Asleep(s: State) {
    s.worker.Sleep? && s.sem == 0
  }

  /** No lost wakeup. Whenever the worker is blocked and some ring holds an event, a waker is on its
      way; a raised pending flag alone already means one. */
  lemma NoLostWakeup(c: Config, run: seq<State>)
    requires Run(c, run) && Asleep(run[|run| - 1])
    ensures var s := run[|run| - 1];
            (s.pending || exists t :: 0 <= t < |s.rings| && s.rings[t] != []) ==> exists t :: WakerAt(s, t)
  {
    RunKeepsWake(c, run);
    var s := run[|run| - 1];
    if s.pending {
      var t :| 0 <= t < |s.prods| && s.prods[t].pc.Post?;
      assert WakerAt(s, t);
    } else if t :| 0 <= t < |s.rings| && s.rings[t] != [] {
      assert Scanned(s.worker, t);
      assert WakerAt(s, t);
    }
  }

  /** How many moves of wakers the semaphore is still away from being positive. */
  ghost function WakeMeasure(s: State): nat {
    if s.sem > 0 then 0 else if s.pending then 1 else 2
  }

  /** A waker's move is the post itself, or the one exchange that lets it post next. */
  lemma WakerWakes(c: Config, s: State, s': State, t: nat)
    requires WakerAt(s, t) && ProducerStep(c, s, s', t)
    ensures s'.sem > 0 || (t < |s'.prods| && s'.prods[t].pc.Post? && WakerAt(s', t))
    ensures s.sem == 0 ==> WakeMeasure(s') < WakeMeasure(s)
  {
  }

  /** Another producer can take a waker's turn away by exchanging the flag first, but then it is a waker
      itself: while the worker is blocked there is one, whoever moves, and no move leads further away. */
  lemma SomeWakerRemains(c: Config, s: State, s': State)
    requires StartInv(c, s) && Asleep(s) && (exists t :: WakerAt(s, t)) && Next(c, s, s')
    ensures s'.sem > 0 || (Asleep(s') && exists u :: WakerAt(s', u))
    ensures WakeMeasure(s') <= WakeMeasure(s)
  {
    hide CollectStep, OfferStep, RaceStep, CreateStep, SignalStep, Published;
    var t: nat :| WakerAt(s, t);
    if u :| ProducerStep(c, s, s', u) {
      if SignalStep(s, s', u) {
        SignalKeepsWaker(s, s', t, u);
      } else {
        OthersKeepWaker(c, s, s', t, u);
      }
    } else if ShutdownStep(s, s') {
      assert s'.sem > 0 || WakerAt(s', t);
    }
  }

  lemma SignalKeepsWaker(s: State, s': State, t: nat, u: nat)
    requires Asleep(s) && WakerAt(s, t) && u < |s.prods| && SignalStep(s, s', u)
    ensures s'.worker == s.worker && WakeMeasure(s') <= WakeMeasure(s)
    ensures s'.sem > 0 || WakerAt(s', t) || WakerAt(s', u)
  {
  }

  /** A move of one producer that leaves worker, flag and semaphore alone. */
  ghost predicate OtherMove(s: State, s': State, u: nat) {
    && u < |s.prods| == |s'.prods| && (forall t :: 0 <= t < |s.prods| && t != u ==> s'.prods[t] == s.prods[t])
    && !s.prods[u].pc.Xchg? && !s.prods[u].pc.Post?
    && s'.worker == s.worker && s'.pending == s.pending && s'.sem == s.sem
  }

  lemma CollectIsOtherMove(c: Config, s: State, s': State, u: nat)
    requires u < |s.prods| && CollectStep(c, s, s', u)
    ensures OtherMove(s, s', u)
  {
    hide Held, EdgesTo;
    if s.prods[u].pc == Idle {
      var op :| s' == Begin(s, u, op);
    }
  }

  lemma StartIsOtherMove(c: Config, s: State, s': State, u: nat)
    requires StartInv(c, s) && s.worker.Sleep? && u < |s.prods| && (RaceStep(s, s', u) || CreateStep(s, s', u))
    ensures OtherMove(s, s', u)
  {
    assert Placed(s.prods[u].pc, u, s);
  }

  lemma OthersKeepWaker(c: Config, s: State, s': State, t: nat, u: nat)
    requires StartInv(c, s) && Asleep(s) && WakerAt(s, t) && u < |s.prods| == |s.rings|
    requires CollectStep(c, s, s', u) || OfferStep(c, s, s', u) || RaceStep(s, s', u) || CreateStep(s, s', u)
    ensures s'.worker == s.worker && s'.pending == s.pending && s'.sem == s.sem && WakerAt(s', t)
  {
    hide CollectStep, RaceStep, CreateStep, StartInv, EdgesTo;
    if CollectStep(c, s, s', u) {
      CollectIsOtherMove(c, s, s', u);
    } else if OfferStep(c, s, s', u) {
      assert OtherMove(s, s', u);
    } else {
      StartIsOtherMove(c, s, s', u);
    }
  }

  ghost predicate WakerMoves(c: Config, s: State, s': State) {
    exists t: nat :: WakerAt(s, t) && ProducerStep(c, s, s', t)
  }

  /** How often a waker has moved since state `n` of the run. */
  ghost function WakerMovesSince(c: Config, run: seq<State>, n: nat): nat {
    if |run| <= n + 1 then 0
    else WakerMovesSince(c, run[..|run| - 1], n) + if WakerMoves(c, run[|run| - 2], run[|run| - 1]) then 1 else 0
  }

  /** From any moment at which the worker is blocked although there is work, and as long as it stays
      blocked, there is a waker, and two moves of wakers, whichever they are and whatever happens in
      between, make the semaphore positive: at most one exchange and one post. */
  lemma {:induction false} TwoWakerMovesSuffice(c: Config, run: seq<State>, n: nat)
    requires Run(c, run) && n < |run| && Asleep(run[n])
    requires run[n].pending || exists t :: 0 <= t < |run[n].rings| && run[n].rings[t] != []
    requires forall i :: n <= i < |run| - 1 ==> run[i].sem == 0
    ensures var s := run[|run| - 1];
            && (s.sem > 0 || (Asleep(s) && exists t :: WakerAt(s, t)))
            && WakerMovesSince(c, run, n) + WakeMeasure(s) <= 2
    decreases |run|
  {
    hide Next, StartInv, ProducerStep, Asleep, WakerAt, WakeMeasure, Init;
    if |run| == n + 1 {
      NoLostWakeup(c, run);
      WakeMeasureBound(run[n]);
    } else {
      var s, s' := run[|run| - 2], run[|run| - 2 + 1];
      TwoWakerMovesSuffice(c, run[..|run| - 1], n);
      WorkerStartsOnce(c, run[..|run| - 1]);
      assert Next(c, s, s');
      SomeWakerRemains(c, s, s');
      if WakerMoves(c, s, s') {
        var t: nat :| WakerAt(s, t) && ProducerStep(c, s, s', t);
        WakerWakes(c, s, s', t);
      }
    }
  }

  lemma WakeMeasureBound(s: State)
    ensures WakeMeasure(s) <= 2
  {
  }

  /** No stuck stall. A producer that finds its ring full while the worker is blocked is not waiting
      for a sleeper that nobody will wake. */
  lemma NoStuckStall(c: Config, run: seq<State>, t: nat)
    requires Run(c, run) && Asleep(run[|run| - 1]) && c.capacity > 0
    requires t < |run[|run| - 1].prods| == |run[|run| - 1].rings|
    requires run[|run| - 1].prods[t].pc.CheckFull? && |run[|run| - 1].rings[t]| >= c.capacity
    ensures var s := run[|run| - 1]; exists u :: u != t && WakerAt(s, u)
  {
    NoLostWakeup(c, run);
  }

  /** From every reachable state in which the worker is blocked although there is work, three steps can
      have it back at the start of a drain: the waker's one or two, and the worker's own. */
  lemma WorkerCanWake(c: Config, run: seq<State>) returns (more: seq<State>)
    requires Run(c, run) && Asleep(run[|run| - 1])
    requires var s := run[|run| - 1]; s.pending || exists t :: 0 <= t < |s.rings| && s.rings[t] != []
    ensures |more| <= 3 && Run(c, run + more)
    ensures (run + more)[|run + more| - 1].worker == Scan(0, false, false)
  {
    NoLostWakeup(c, run);
    RunKeepsWake(c, run);
    var s := run[|run| - 1];
    var t: nat :| WakerAt(s, t);
    if s.prods[t].pc.Post? {
      more := PostThenWake(c, run, t);
    } else {
      var s' := At(s, t, Post(s.prods[t].pc.retry)).(pending := true);
      assert SignalStep(s, s', t) && ProducerStep(c, s, s', t);
      ExtendRun(c, run, s');
      more := PostThenWake(c, run + [s'], t);
      assert run + [s'] + more == run + ([s'] + more);
      more := [s'] + more;
    }
  }

  lemma PostThenWake(c: Config, run: seq<State>, t: nat) returns (more: seq<State>)
    requires Run(c, run) && run[|run| - 1].worker.Sleep? && t < |run[|run| - 1].prods| == |run[|run| - 1].rings|
    requires run[|run| - 1].prods[t].pc.Post?
    ensures |more| == 2 && Run(c, run + more) && more[1].worker == Scan(0, false, false)
  {
    var s := run[|run| - 1];
    var s' := At(s, t, After(s.prods[t].pc.retry)).(sem := s.sem + 1);
    assert SignalStep(s, s', t) && ProducerStep(c, s, s', t);
    ExtendRun(c, run, s');
    var s'' := WorkerAt(s'.(sem := s.sem), Scan(0, false, false));
    assert FlagStep(s', s'') && WorkerStep(s', s'');
    ExtendRun(c, run + [s'], s'');
    assert run + [s'] + [s''] == run + [s', s''];
    more := [s', s''];
  }

  lemma ExtendRun(c: Config, run: seq<State>, s: State)
    requires Run(c, run) && Next(c, run[|run| - 1], s)
    ensures Run(c, run + [s])
  {
    hide Next, Init;
    var longer := run + [s];
    forall i | 0 <= i < |longer| - 1
      ensures Next(c, longer[i], longer[i + 1])
    {
      if i < |run| - 1 {
        assert Next(c, run[i], run[i + 1]);
      }
    }
  }
}
