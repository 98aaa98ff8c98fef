/** How a report could be made exact with nothing but single loads. After its walk has closed, the thread
    reads the chain again from the last link back to the first, each time the owner and then the
    announcement, while all other threads go on. It holds the last lock itself, so every link that is
    confirmed is frozen by the one confirmed before it. */
module WaitReread {
  import opened Slots
  import opened WaitMachine
  import opened WaitDetect
  import opened WaitOutcome
  import opened WaitSound

  // ---------------------------------------------------------------- the end of the chain is frozen

  /** The links of the chain from `i` on are real. */
  ghost predicate TailReal(c: Config, s: State, threads: seq<nat>, locks: seq<nat>, i: nat) {
    && Shaped(c, s) && ClosedChain(c, threads, locks)
    && forall k :: i <= k < |locks| ==> RealLink(c, s, threads[k], locks[k], threads[k + 1])
  }

  /** Thread `w` has announced a lock that somebody else does not let go of. */
  ghost predicate Stuck(c: Config, s: State, w: nat) {
    && Shaped(c, s) && w < c.threads && Waits(s.thr[w].pc) && s.thr[w].pc.m < c.locks
    && s.holder[s.thr[w].pc.m] != INVALID_SLOT
  }

  /** A step of another thread, or any step of a stuck one, neither gives `w` a lock nor takes one from it. */
  lemma HoldsTheSame(c: Config, s: State, s': State, u: nat, w: nat)
    requires Ledger(c, s) && Step(c, s, s', u) && w < c.threads && (u != w || Stuck(c, s, w))
    ensures |s'.holder| == |s.holder|
    ensures forall m :: 0 <= m < c.locks ==> (s'.holder[m] == w <==> s.holder[m] == w)
    ensures u != w ==> |s'.thr| == |s.thr| && s'.thr[w] == s.thr[w]
    ensures u == w ==> WalkStep(c, s, s', w)
  {
    StepShape(c, s, s', u);
    StepInThreads(c, s, s', u);
    StepTouches(c, s, s', u);
    HolderMoves(c, s, s', u);
    hide Ledger, Step, WalkStep;
    if u == w {
      WalkMoves(c, s, s', w);
    }
  }

  /** The real end of a chain survives every step while the thread at its end does not move. */
  lemma TailIsFrozen(c: Config, s: State, s': State, u: nat, threads: seq<nat>, locks: seq<nat>, i: nat)
    requires Ledger(c, s) && Ledger(c, s') && Step(c, s, s', u) && ClosedChain(c, threads, locks) && u != threads[0]
    requires TailReal(c, s, threads, locks, i)
    ensures TailReal(c, s', threads, locks, i)
  {
    LedgerShape(c, s');
    hide Ledger, Step, Shaped;
    forall k | i <= k < |locks|
      ensures RealLink(c, s', threads[k], locks[k], threads[k + 1])
    {
      assert RealLink(c, s, threads[k], locks[k], threads[k + 1]);
      if k + 1 < |locks| {
        assert RealLink(c, s, threads[k + 1], locks[k + 1], threads[k + 2]);
      }
      HoldsTheSame(c, s, s', u, threads[k + 1]);
      HoldsTheSame(c, s, s', u, threads[k]);
      if u == threads[k] {
        WalkMoves(c, s, s', u);
      }
    }
  }

  // ---------------------------------------------------------------- the second reading

  /** The other threads go on while thread `t` reads. */
  ghost predicate Pause(c: Config, states: seq<State>, movers: seq<nat>, t: nat) {
    && |states| == |movers| + 1 && Ledger(c, states[0])
    && forall j :: 0 <= j < |movers| ==> Step(c, states[j], states[j + 1], movers[j]) && movers[j] != t
  }

  /** When the owner and then the announcement of each link is loaded: the last link first. */
  ghost predicate Backward(states: seq<State>, n: nat, own: seq<nat>, wait: seq<nat>) {
    && |own| == |wait| == n
    && (forall i :: 0 <= i < n ==> own[i] <= wait[i] < |states|)
    && (forall i :: 0 < i < n ==> wait[i] <= own[i - 1])
  }

  ghost predicate OwnerReads(s: State, m: nat, o: nat) {
    m < |s.owner| && s.owner[m] == o
  }

  ghost predicate WaitingReads(s: State, t: nat, m: nat) {
    t < |s.waiting| && s.waiting[t] == m
  }

  /** Every load finds what the walk had found. */
  ghost predicate Passes(states: seq<State>, threads: seq<nat>, locks: seq<nat>, own: seq<nat>, wait: seq<nat>)
    requires Backward(states, |locks|, own, wait) && |threads| == |locks| + 1
  {
    forall i :: 0 <= i < |locks| ==>
      OwnerReads(states[own[i]], locks[i], threads[i + 1]) && WaitingReads(states[wait[i]], threads[i], locks[i])
  }

  lemma {:induction false} PauseKeepsLedger(c: Config, states: seq<State>, movers: seq<nat>, t: nat, j: nat)
    requires Pause(c, states, movers, t) && j < |states|
    ensures Ledger(c, states[j])
  {
    hide Ledger, Step;
    if j > 0 {
      PauseKeepsLedger(c, states, movers, t, j - 1);
      assert Step(c, states[j - 1], states[j - 1 + 1], movers[j - 1]);
      StepShape(c, states[j - 1], states[j], movers[j - 1]);
      StepKeepsLedger(c, states[j - 1], states[j], movers[j - 1]);
    }
  }

  /** From one load to a later one, a real end of the chain stays real, and its first thread holds what
      it held. */
  lemma {:induction false} EndStaysReal(c: Config, states: seq<State>, movers: seq<nat>, threads: seq<nat>,
                                        locks: seq<nat>, i: nat, m: nat, a: nat, b: nat)
    requires ClosedChain(c, threads, locks) && Pause(c, states, movers, threads[0]) && a <= b < |states|
    requires i <= |locks| && m < c.locks && TailReal(c, states[a], threads, locks, i)
    ensures TailReal(c, states[b], threads, locks, i)
    ensures m < |states[a].holder| && m < |states[b].holder|
    ensures states[a].holder[m] == threads[i] <==> states[b].holder[m] == threads[i]
    decreases b
  {
    hide Ledger, Step;
    if a < b {
      EndStaysReal(c, states, movers, threads, locks, i, m, a, b - 1);
      var s, s', u := states[b - 1], states[b - 1 + 1], movers[b - 1];
      PauseKeepsLedger(c, states, movers, threads[0], b - 1);
      PauseKeepsLedger(c, states, movers, threads[0], b);
      assert Step(c, s, s', u);
      TailIsFrozen(c, s, s', u, threads, locks, i);
      if i < |locks| {
        FirstOfTailIsStuck(c, s, threads, locks, i);
      }
      HoldsTheSame(c, s, s', u, threads[i]);
    }
  }

  lemma FirstOfTailIsStuck(c: Config, s: State, threads: seq<nat>, locks: seq<nat>, i: nat)
    requires i < |locks| && TailReal(c, s, threads, locks, i)
    ensures Stuck(c, s, threads[i])
  {
    assert RealLink(c, s, threads[i], locks[i], threads[i + 1]);
  }

  /** For a thread that waits, owning and holding are the same. */
  lemma WaiterOwnsWhatItHolds(c: Config, s: State, w: nat, m: nat)
    requires Ledger(c, s) && Shaped(c, s) && w < c.threads && m < c.locks && Waits(s.thr[w].pc)
    ensures s.owner[m] == w <==> s.holder[m] == w
  {
    assert ThreadLedger(s, w) && LockLedger(c, s, m);
    assert s.holder[m] == w <==> ReallyHolds(s.thr[w], m);
  }

  lemma AnnouncedIsWanted(c: Config, s: State, t: nat, m: nat, next: nat)
    requires Ledger(c, s) && Shaped(c, s) && t < c.threads && m < c.locks && next < c.threads
    requires s.holder[m] == next && Waits(s.thr[next].pc)
    ensures s.waiting[t] == m <==> Waits(s.thr[t].pc) && s.thr[t].pc.m == m
  {
    assert ThreadLedger(s, t) && LockLedger(c, s, m);
    assert Acquired(s.thr[t].pc, m) ==> ReallyHolds(s.thr[t], m);
  }

  /** The reading thread stands where its walk closed. */
  lemma {:induction false} ReaderStandsStill(c: Config, states: seq<State>, movers: seq<nat>, t: nat, j: nat)
    requires Pause(c, states, movers, t) && t < c.threads && j < |states|
    ensures Shaped(c, states[0]) && Shaped(c, states[j]) && states[j].thr[t] == states[0].thr[t]
  {
    hide Ledger, Step;
    PauseKeepsLedger(c, states, movers, t, j);
    LedgerShape(c, states[j]);
    LedgerShape(c, states[0]);
    if j > 0 {
      ReaderStandsStill(c, states, movers, t, j - 1);
      assert Step(c, states[j - 1], states[j - 1 + 1], movers[j - 1]);
      StepTouches(c, states[j - 1], states[j], movers[j - 1]);
    }
  }

  /** Thread `t` has closed its walk on this chain and has not moved since. */
  ghost predicate Reading(c: Config, states: seq<State>, movers: seq<nat>, threads: seq<nat>, locks: seq<nat>) {
    && ClosedChain(c, threads, locks) && Pause(c, states, movers, threads[0])
    && threads[0] < |states[0].thr| && Waits(states[0].thr[threads[0]].pc)
  }

  /** Where the links after `i` are real, the thread they begin with waits. */
  lemma NextWaits(c: Config, states: seq<State>, movers: seq<nat>, threads: seq<nat>, locks: seq<nat>, i: nat, j: nat)
    requires Reading(c, states, movers, threads, locks) && i < |locks| && j < |states|
    requires TailReal(c, states[j], threads, locks, i + 1)
    ensures Ledger(c, states[j]) && Shaped(c, states[j]) && Waits(states[j].thr[threads[i + 1]].pc)
  {
    hide Ledger, Step, Pause;
    PauseKeepsLedger(c, states, movers, threads[0], j);
    if i + 1 < |locks| {
      FirstOfTailIsStuck(c, states[j], threads, locks, i + 1);
    } else {
      ReaderStandsStill(c, states, movers, threads[0], j);
    }
  }

  /** With the later links real, two single loads decide one more link: the owner at `a`, then the
      announcement at `b`, answer as the walk did exactly when the link is real at `b`. */
  lemma TwoLoadsDecideOneLink(c: Config, states: seq<State>, movers: seq<nat>, threads: seq<nat>, locks: seq<nat>,
                              i: nat, from: nat, a: nat, b: nat)
    requires Reading(c, states, movers, threads, locks) && i < |locks| && from <= a <= b < |states|
    requires TailReal(c, states[from], threads, locks, i + 1)
    ensures OwnerReads(states[a], locks[i], threads[i + 1]) && WaitingReads(states[b], threads[i], locks[i]) <==>
            TailReal(c, states[b], threads, locks, i)
  {
    var m, next := locks[i], threads[i + 1];
    EndStaysReal(c, states, movers, threads, locks, i + 1, m, from, a);
    EndStaysReal(c, states, movers, threads, locks, i + 1, m, a, b);
    NextWaits(c, states, movers, threads, locks, i, a);
    NextWaits(c, states, movers, threads, locks, i, b);
    WaiterOwnsWhatItHolds(c, states[a], next, m);
    hide Ledger, Step, Pause;
    if states[b].holder[m] == next {
      AnnouncedIsWanted(c, states[b], threads[i], m, next);
    }
    assert TailReal(c, states[b], threads, locks, i) <==> RealLink(c, states[b], threads[i], m, next);
  }

  // ---------------------------------------------------------------- main result 5: reading backwards is exact

  /** The second reading confirms every link exactly when, at the moment each announcement is loaded, the
      chain is real from that link on. */
  lemma RereadPassesIffTailsReal(c: Config, states: seq<State>, movers: seq<nat>, threads: seq<nat>, locks: seq<nat>,
                                 own: seq<nat>, wait: seq<nat>)
    requires Reading(c, states, movers, threads, locks) && Backward(states, |locks|, own, wait)
    ensures Passes(states, threads, locks, own, wait) <==>
            forall i :: 0 <= i < |locks| ==> TailReal(c, states[wait[i]], threads, locks, i)
  {
    assert |threads| == |locks| + 1;
    hide Reading, TailReal, OwnerReads, WaitingReads;
    if Passes(states, threads, locks, own, wait) {
      forall i | 0 <= i < |locks|
        ensures TailReal(c, states[wait[i]], threads, locks, i)
      {
        PassedTailIsReal(c, states, movers, threads, locks, own, wait, i);
      }
    }
    if forall i :: 0 <= i < |locks| ==> TailReal(c, states[wait[i]], threads, locks, i) {
      forall i | 0 <= i < |locks|
        ensures OwnerReads(states[own[i]], locks[i], threads[i + 1]) &&
                WaitingReads(states[wait[i]], threads[i], locks[i])
      {
        if i + 1 < |locks| {
          TwoLoadsDecideOneLink(c, states, movers, threads, locks, i, wait[i + 1], own[i], wait[i]);
        } else {
          NoLinksLeft(c, states, movers, threads, locks, own[i]);
          TwoLoadsDecideOneLink(c, states, movers, threads, locks, i, own[i], own[i], wait[i]);
        }
      }
    }
  }

  lemma NoLinksLeft(c: Config, states: seq<State>, movers: seq<nat>, threads: seq<nat>, locks: seq<nat>, j: nat)
    requires Reading(c, states, movers, threads, locks) && j < |states|
    ensures TailReal(c, states[j], threads, locks, |locks|)
  {
    hide Ledger, Step, Pause;
    ReaderStandsStill(c, states, movers, threads[0], j);
  }

  lemma {:induction false} PassedTailIsReal(c: Config, states: seq<State>, movers: seq<nat>, threads: seq<nat>,
                                            locks: seq<nat>, own: seq<nat>, wait: seq<nat>, i: nat)
    requires Reading(c, states, movers, threads, locks) && Backward(states, |locks|, own, wait)
    requires Passes(states, threads, locks, own, wait) && i < |locks|
    ensures TailReal(c, states[wait[i]], threads, locks, i)
    decreases |locks| - i
  {
    hide Reading, TailReal;
    if i + 1 < |locks| {
      PassedTailIsReal(c, states, movers, threads, locks, own, wait, i + 1);
      TwoLoadsDecideOneLink(c, states, movers, threads, locks, i, wait[i + 1], own[i], wait[i]);
    } else {
      NoLinksLeft(c, states, movers, threads, locks, own[i]);
      TwoLoadsDecideOneLink(c, states, movers, threads, locks, i, own[i], own[i], wait[i]);
    }
  }

  /** The moment before the process is ended. */
  ghost function BeforeExit(s: State): State {
    s.(exited := false)
  }

  /** Take any reachable report and let the other threads go on while the reporting thread reads its chain
      again, backwards, one field at a time. If the chain was a circular wait when the walk closed, every
      load confirms it; if every load confirms it, it is a circular wait, then and for as long as the
      reporting thread stands there. */
  lemma BackwardRereadIsExact(c: Config, run: seq<State>, actors: seq<nat>, t: nat, threads: seq<nat>, locks: seq<nat>,
                              states: seq<State>, movers: seq<nat>, own: seq<nat>, wait: seq<nat>)
    requires Run(c, run, actors) && Reports(c, run[|run| - 1], t, threads, locks)
    requires Pause(c, states, movers, t) && states[0] == BeforeExit(run[|run| - 1])
    requires Backward(states, |locks|, own, wait) && Shaped(c, states[|states| - 1])
    ensures RealCircularWait(c, run[|run| - 1], threads, locks) ==> Passes(states, threads, locks, own, wait)
    ensures Passes(states, threads, locks, own, wait) ==> RealCircularWait(c, states[|states| - 1], threads, locks)
  {
    assert Reading(c, states, movers, threads, locks);
    assert RealCircularWait(c, run[|run| - 1], threads, locks) <==> TailReal(c, states[0], threads, locks, 0);
    RereadPassesIffTailsReal(c, states, movers, threads, locks, own, wait);
    hide Ledger, Step, Passes, Reports;
    if TailReal(c, states[0], threads, locks, 0) {
      forall i | 0 <= i < |locks|
        ensures TailReal(c, states[wait[i]], threads, locks, i)
      {
        EndStaysReal(c, states, movers, threads, locks, 0, 0, 0, wait[i]);
      }
    }
    if Passes(states, threads, locks, own, wait) {
      EndStaysReal(c, states, movers, threads, locks, 0, 0, wait[0], |states| - 1);
    }
  }

  /** Reading again loses no deadlock: when the last announcer of a wait cycle closes its walk, the chain is
      that cycle and is real, so the second reading confirms it. */
  lemma RereadKeepsDetection(c: Config, run: seq<State>, actors: seq<nat>, cyc: seq<nat>, threads: seq<nat>,
                             locks: seq<nat>, states: seq<State>, movers: seq<nat>, own: seq<nat>, wait: seq<nat>)
    requires Run(c, run, actors) && actors != []
    requires WaitCycle(c, run[|run| - 1], cyc) && LastToWait(c, run[|run| - 1], cyc) && actors[|actors| - 1] == cyc[0]
    requires Reports(c, run[|run| - 1], cyc[0], threads, locks)
    requires Pause(c, states, movers, cyc[0]) && states[0] == BeforeExit(run[|run| - 1])
    requires Backward(states, |locks|, own, wait)
    ensures threads == cyc + [cyc[0]] && Passes(states, threads, locks, own, wait)
  {
    LastLoadOfCycle(c, run, actors, cyc);
    hide Run, Ledger, Step, LastToWait;
    var s := run[|run| - 1];
    forall i | 0 <= i < |locks|
      ensures RealLink(c, s, threads[i], locks[i], threads[i + 1])
    {
      assert Link(c, s, cyc[i], cyc[Succ(i, |cyc|)]);
    }
    ReaderStandsStill(c, states, movers, cyc[0], |states| - 1);
    BackwardRereadIsExact(c, run, actors, cyc[0], threads, locks, states, movers, own, wait);
  }

  lemma LastLoadOfCycle(c: Config, run: seq<State>, actors: seq<nat>, cyc: seq<nat>)
    requires Run(c, run, actors) && actors != [] && run[|run| - 1].exited
    requires WaitCycle(c, run[|run| - 1], cyc) && LastToWait(c, run[|run| - 1], cyc) && actors[|actors| - 1] == cyc[0]
    ensures ClosedOn(run[|run| - 1], cyc)
  {
    var n := |actors|;
    var s, s', t := run[n - 1], run[n], cyc[0];
    RunPrefix(c, run, actors);
    RunKeepsDetects(c, run[..n], actors[..n - 1]);
    StepShape(c, s, s', t);
    StepTouches(c, s, s', t);
    assert Link(c, s', cyc[0], cyc[Succ(0, |cyc|)]);
    ExitIsNoAnnouncement(c, s, s', t);
    CycleSurvivesWalk(c, s, s', t, cyc);
    hide Run, Ledger, Step, WalkStep, ClosedOn, OnCourse;
    WalkerStaysOnCourse(c, s, s', cyc);
  }

  lemma ExitIsNoAnnouncement(c: Config, s: State, s': State, t: nat)
    requires Shaped(c, s) && t < c.threads && WalkStep(c, s, s', t) && s'.exited && !s.exited
    ensures !s.thr[t].pc.Busy?
  {
  }
}
