/** When a reported wait chain is a real circular wait. The walk reads one field at a time, so what it
    put together may never have been true at once: exactly the chains whose fields still read the same
    when it answers are real. */
module WaitSound {
  import opened Slots
  import opened WaitMachine
  import opened WaitDetect
  import opened WaitOutcome

  /** A chain of thread slots and lock slots as the walk records it, back at its start. */
  ghost predicate ClosedChain(c: Config, threads: seq<nat>, locks: seq<nat>) {
    && |threads| == |locks| + 1 && |locks| > 0 && threads[|locks|] == threads[0]
    && (forall i :: 0 <= i < |threads| ==> threads[i] < c.threads)
    && (forall i :: 0 <= i < |locks| ==> locks[i] < c.locks)
  }

  /** Thread `t` waits for lock `m`, which thread `next` really holds. */
  ghost predicate RealLink(c: Config, s: State, t: nat, m: nat, next: nat)
    requires Shaped(c, s) && t < c.threads && m < c.locks
  {
    Waits(s.thr[t].pc) && s.thr[t].pc.m == m && s.holder[m] == next
  }

  /** The bookkeeping says so. */
  ghost predicate FieldLink(c: Config, s: State, t: nat, m: nat, next: nat)
    requires Shaped(c, s) && t < c.threads && m < c.locks
  {
    s.waiting[t] == m && s.owner[m] == next
  }

  ghost predicate RealCircularWait(c: Config, s: State, threads: seq<nat>, locks: seq<nat>)
    requires Shaped(c, s) && ClosedChain(c, threads, locks)
  {
    forall i :: 0 <= i < |locks| ==> RealLink(c, s, threads[i], locks[i], threads[i + 1])
  }

  ghost predicate FieldsAgree(c: Config, s: State, threads: seq<nat>, locks: seq<nat>)
    requires Shaped(c, s) && ClosedChain(c, threads, locks)
  {
    forall i :: 0 <= i < |locks| ==> FieldLink(c, s, threads[i], locks[i], threads[i + 1])
  }

  /** A thread that announces a lock is not on its way out of another: what it owns it holds. */
  lemma FieldLinkIsReal(c: Config, s: State, t: nat, m: nat, next: nat)
    requires Ledger(c, s) && t < c.threads && m < c.locks && next < c.threads
    requires FieldLink(c, s, t, m, next) && s.waiting[next] != INVALID_SLOT
    ensures RealLink(c, s, t, m, next)
  {
    assert ThreadLedger(s, t) && ThreadLedger(s, next) && LockLedger(c, s, m);
    assert m in s.thr[next].held && s.thr[next].pc != Unlocked(m);
    assert ReallyHolds(s.thr[next], m);
    assert Waits(s.thr[t].pc) || Acquired(s.thr[t].pc, m);
  }

  lemma RealLinkIsInFields(c: Config, s: State, t: nat, m: nat, next: nat)
    requires Ledger(c, s) && t < c.threads && m < c.locks && next < c.threads
    requires RealLink(c, s, t, m, next) && Waits(s.thr[next].pc)
    ensures FieldLink(c, s, t, m, next)
  {
    assert ThreadLedger(s, t) && LockLedger(c, s, m);
    assert ReallyHolds(s.thr[next], m);
  }

  lemma LedgerShape(c: Config, s: State)
    requires Ledger(c, s)
    ensures Shaped(c, s)
  {
  }

  /** In every state a run can reach: the fields agree along a chain just when it is a circular wait. */
  lemma FieldsMeanReal(c: Config, s: State, threads: seq<nat>, locks: seq<nat>)
    requires Ledger(c, s) && Shaped(c, s) && ClosedChain(c, threads, locks)
    ensures FieldsAgree(c, s, threads, locks) <==> RealCircularWait(c, s, threads, locks)
  {
    hide Ledger, Shaped;
    var n := |locks|;
    if FieldsAgree(c, s, threads, locks) {
      forall i | 0 <= i < n
        ensures RealLink(c, s, threads[i], locks[i], threads[i + 1])
      {
        var j := if i + 1 < n then i + 1 else 0;
        assert FieldLink(c, s, threads[i], locks[i], threads[i + 1]) &&
            FieldLink(c, s, threads[j], locks[j], threads[j + 1]);
        FieldLinkIsReal(c, s, threads[i], locks[i], threads[i + 1]);
      }
    }
    if RealCircularWait(c, s, threads, locks) {
      forall i | 0 <= i < n
        ensures FieldLink(c, s, threads[i], locks[i], threads[i + 1])
      {
        var j := if i + 1 < n then i + 1 else 0;
        assert RealLink(c, s, threads[i], locks[i], threads[i + 1]) &&
            RealLink(c, s, threads[j], locks[j], threads[j + 1]);
        RealLinkIsInFields(c, s, threads[i], locks[i], threads[i + 1]);
      }
    }
  }

  // ---------------------------------------------------------------- what the walk has read

  ghost predicate Walking(pc: Pc) {
    pc.WalkOwner? || pc.WalkWaiting?
  }

  /** The last states of the run, from `from` on, are one walk of thread `t`. */
  ghost predicate WalkSpan(c: Config, run: seq<State>, from: nat, t: nat) {
    && from < |run| && t < c.threads
    && (forall j :: from <= j < |run| ==> Shaped(c, run[j]) && Walking(run[j].thr[t].pc))
    && (exists m: nat :: run[from].thr[t].pc == WalkOwner(m, m, [t], []))
  }

  ghost predicate WasOwner(run: seq<State>, from: nat, m: nat, o: nat) {
    exists j :: from <= j < |run| && m < |run[j].owner| && run[j].owner[m] == o
  }

  ghost predicate WasWaiting(run: seq<State>, from: nat, t: nat, m: nat) {
    exists j :: from <= j < |run| && t < |run[j].waiting| && run[j].waiting[t] == m
  }

  /** Every entry was the content of its field at some moment of the walk. */
  ghost predicate WasRead(run: seq<State>, from: nat, threads: seq<nat>, locks: seq<nat>) {
    && |threads| == |locks| + 1
    && forall i :: 0 <= i < |locks| ==>
         WasWaiting(run, from, threads[i], locks[i]) && WasOwner(run, from, locks[i], threads[i + 1])
  }

  ghost predicate ChainWasRead(run: seq<State>, from: nat, pc: Pc) {
    match pc
    case WalkOwner(m, cur, threads, locks) =>
      WasRead(run, from, threads, locks) && WasWaiting(run, from, threads[|locks|], cur)
    case WalkWaiting(m, threads, locks) => WasRead(run, from, threads, locks)
    case _ => false
  }

  lemma {:induction false} WalkReadsItsChain(c: Config, run: seq<State>, actors: seq<nat>, from: nat, t: nat)
    requires Run(c, run, actors) && WalkSpan(c, run, from, t)
    ensures ChainWasRead(run, from, run[|run| - 1].thr[t].pc)
  {
    hide Ledger, Step, WasRead, Init;
    var n := |actors|;
    if from == n {
      RunKeepsLedger(c, run, actors);
      WalkBegins(c, run, from, t);
    } else {
      RunPrefix(c, run, actors);
      WalkReadsItsChain(c, run[..n], actors[..n - 1], from, t);
      StillRead(run, from, run[n - 1].thr[t].pc);
      WalkMove(c, run[n - 1], run[n], t, actors[n - 1]);
      if run[n].thr[t].pc != run[n - 1].thr[t].pc {
        OneLoad(run, from, n - 1, run[n - 1].thr[t].pc, run[n].thr[t].pc);
      }
    }
  }

  lemma WalkBegins(c: Config, run: seq<State>, from: nat, t: nat)
    requires WalkSpan(c, run, from, t) && from + 1 == |run| && Ledger(c, run[from])
    ensures ChainWasRead(run, from, run[from].thr[t].pc)
  {
    assert ThreadLedger(run[from], t);
  }

  lemma StillRead(run: seq<State>, from: nat, pc: Pc)
    requires |run| > 0 && ChainWasRead(run[..|run| - 1], from, pc)
    ensures ChainWasRead(run, from, pc)
  {
    var r := run[..|run| - 1];
    forall t: nat, m: nat | WasWaiting(r, from, t, m)
      ensures WasWaiting(run, from, t, m)
    {
      var j :| from <= j < |r| && t < |r[j].waiting| && r[j].waiting[t] == m;
      assert run[j].waiting[t] == m;
    }
    forall t: nat, m: nat | WasOwner(r, from, m, t)
      ensures WasOwner(run, from, m, t)
    {
      var j :| from <= j < |r| && m < |r[j].owner| && r[j].owner[m] == t;
      assert run[j].owner[m] == t;
    }
  }

  /** The walk of a thread does its next load in state `s`. */
  ghost predicate Loads(s: State, pc: Pc, pc': Pc) {
    match pc
    case WalkOwner(m, cur, threads, locks) =>
      cur < |s.owner| && s.owner[cur] >= 0 && pc' == WalkWaiting(m, threads + [s.owner[cur]], locks + [cur])
    case WalkWaiting(m, threads, locks) =>
      && |threads| == |locks| + 1 && threads[|locks|] < |s.waiting| && s.waiting[threads[|locks|]] >= 0
      && pc' == WalkOwner(m, s.waiting[threads[|locks|]], threads, locks)
    case _ => false
  }

  lemma OwnerSeen(run: seq<State>, from: nat, j: nat, m: nat)
    requires from <= j < |run| && m < |run[j].owner| && run[j].owner[m] >= 0
    ensures WasOwner(run, from, m, run[j].owner[m])
  {
  }

  lemma WaitingSeen(run: seq<State>, from: nat, j: nat, t: nat)
    requires from <= j < |run| && t < |run[j].waiting| && run[j].waiting[t] >= 0
    ensures WasWaiting(run, from, t, run[j].waiting[t])
  {
  }

  lemma OneLoad(run: seq<State>, from: nat, j: nat, pc: Pc, pc': Pc)
    requires from <= j < |run| && Loads(run[j], pc, pc') && ChainWasRead(run, from, pc)
    ensures ChainWasRead(run, from, pc')
  {
    hide WasOwner, WasWaiting;
    var s := run[j];
    match pc
    case WalkOwner(m, cur, threads, locks) =>
      assert WasOwner(run, from, cur, s.owner[cur]) by {
        OwnerSeen(run, from, j, cur);
      }
    case WalkWaiting(m, threads, locks) =>
      WaitingSeen(run, from, j, threads[|locks|]);
  }

  lemma WalkMove(c: Config, s: State, s': State, t: nat, actor: nat)
    requires Step(c, s, s', actor) && Shaped(c, s) && Shaped(c, s') && t < c.threads && Walking(s.thr[t].pc) &&
             Walking(s'.thr[t].pc)
    ensures s'.thr[t].pc == s.thr[t].pc || Loads(s, s.thr[t].pc, s'.thr[t].pc)
  {
    if actor == t {
      StepTouches(c, s, s', t);
      assert PcInRange(c, t, s.thr[t].pc);
      hide Step, CallStep, GrantStep, BookStep;
    } else {
      StepTouches(c, s, s', actor);
      hide Step, CallStep, GrantStep, BookStep, WalkStep;
    }
  }

  // ---------------------------------------------------------------- main result 4: what a report means

  /** The process has been ended by thread `t`, which reports this chain. */
  ghost predicate Reports(c: Config, s: State, t: nat, threads: seq<nat>, locks: seq<nat>) {
    && Shaped(c, s) && s.exited && t < c.threads && ClosedChain(c, threads, locks) && threads[0] == t
    && s.thr[t].pc.WalkWaiting? && s.thr[t].pc.threads == threads && s.thr[t].pc.locks == locks
  }

  /** The process ends only with such a report, made by the thread that took the last step. */
  lemma EveryExitReports(c: Config, run: seq<State>, actors: seq<nat>) returns (threads: seq<nat>, locks: seq<nat>)
    requires Run(c, run, actors) && run[|run| - 1].exited
    ensures actors != [] && Reports(c, run[|run| - 1], actors[|actors| - 1], threads, locks)
  {
    var n := |actors|;
    RunKeepsLedger(c, run, actors);
    RunPrefix(c, run, actors);
    var t := actors[n - 1];
    ExitStep(c, run[n - 1], run[n], t);
    assert PcInRange(c, t, run[n].thr[t].pc);
    threads, locks := run[n].thr[t].pc.threads, run[n].thr[t].pc.locks;
  }

  lemma ExitStep(c: Config, s: State, s': State, t: nat)
    requires Step(c, s, s', t) && s'.exited && Shaped(c, s')
    ensures var pc := s'.thr[t].pc;
            pc.WalkWaiting? && |pc.threads| == |pc.locks| + 1 && |pc.locks| > 0 &&
                pc.threads[|pc.locks|] == t == pc.threads[0]
  {
    hide Ledger;
    assert PcInRange(c, t, s.thr[t].pc) && PcInRange(c, t, s'.thr[t].pc);
  }

  /** A report is a real circular wait exactly when the fields it was put together from still read the
      same when it is made. */
  lemma ReportIsRealIffFieldsAgree(c: Config, run: seq<State>, actors: seq<nat>, t: nat, threads: seq<nat>,
                                   locks: seq<nat>)
    requires Run(c, run, actors) && Reports(c, run[|run| - 1], t, threads, locks)
    ensures RealCircularWait(c, run[|run| - 1], threads, locks) <==> FieldsAgree(c, run[|run| - 1], threads, locks)
  {
    RunKeepsLedger(c, run, actors);
    FieldsMeanReal(c, run[|run| - 1], threads, locks);
  }

  /** From `from` on, no field along the chain was written. */
  ghost predicate Stable(run: seq<State>, from: nat, threads: seq<nat>, locks: seq<nat>)
    requires |run| > 0
  {
    var end := run[|run| - 1];
    forall j, i :: from <= j < |run| && 0 <= i < |locks| && i < |threads| ==>
        SameFields(run[j], end, threads[i], locks[i])
  }

  ghost predicate SameFields(s: State, end: State, t: nat, m: nat) {
    && (t < |s.waiting| && t < |end.waiting| ==> s.waiting[t] == end.waiting[t])
    && (m < |s.owner| && m < |end.owner| ==> s.owner[m] == end.owner[m])
  }

  /** If the fields stood still during the walk, the reported chain is a real circular wait: every
      thread of it has announced the next lock and the thread after it really holds that lock. */
  lemma StableWalkIsSound(c: Config, run: seq<State>, actors: seq<nat>, from: nat, t: nat, threads: seq<nat>,
                          locks: seq<nat>)
    requires Run(c, run, actors) && WalkSpan(c, run, from, t)
    requires Reports(c, run[|run| - 1], t, threads, locks) && Stable(run, from, threads, locks)
    ensures RealCircularWait(c, run[|run| - 1], threads, locks)
  {
    WalkReadsItsChain(c, run, actors, from, t);
    ReportIsRealIffFieldsAgree(c, run, actors, t, threads, locks);
    StableFieldsAgree(c, run, from, threads, locks);
  }

  lemma StableFieldsAgree(c: Config, run: seq<State>, from: nat, threads: seq<nat>, locks: seq<nat>)
    requires from < |run| && (forall j :: from <= j < |run| ==> Shaped(c, run[j])) && ClosedChain(c, threads, locks)
    requires WasRead(run, from, threads, locks) && Stable(run, from, threads, locks)
    ensures FieldsAgree(c, run[|run| - 1], threads, locks)
  {
    var end := run[|run| - 1];
    forall i | 0 <= i < |locks|
      ensures FieldLink(c, end, threads[i], locks[i], threads[i + 1])
    {
      var t, m, o := threads[i], locks[i], threads[i + 1];
      assert WasWaiting(run, from, t, m) && WasOwner(run, from, m, o);
      var j :| from <= j < |run| && t < |run[j].waiting| && run[j].waiting[t] == m;
      var k :| from <= k < |run| && m < |run[k].owner| && run[k].owner[m] == o;
      assert SameFields(run[j], end, t, m) && SameFields(run[k], end, t, m);
    }
  }
}
