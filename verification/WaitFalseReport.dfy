/** A report that is not a deadlock. Thread 0 holds lock 0 and waits for lock 1, held by thread 1, which
    also holds lock 2. Between thread 0's load of the owner of lock 1 and its load of what thread 1
    waits for, thread 1 unlocks lock 1 and announces lock 0. Thread 0 puts the old owner and the new
    announcement together, reports 0 -> 1 -> 0 and ends the process, while lock 1 is free. */
module WaitFalseReport {
  import opened Slots
  import opened WaitMachine
  import opened WaitSound

  const CASE := Config(2, 3)

  /** The state from its seven varying parts. */
  ghost function St(holder: seq<int>, owner: seq<int>, waiting: seq<int>, t0: Thread, t1: Thread, clock: nat): State {
    State(holder, owner, waiting, [t0, t1], clock, false)
  }

  ghost const S0 := St([-1, -1, -1], [-1, -1, -1], [-1, -1], Thread(Idle, {}, 0), Thread(Idle, {}, 0), 0)
  ghost const S1 := St([0, -1, -1], [-1, -1, -1], [-1, -1], Thread(TopLocked(0), {}, 0), Thread(Idle, {}, 0), 0)
  ghost const S2 := St([0, -1, -1], [0, -1, -1], [-1, -1], Thread(Idle, {0}, 0), Thread(Idle, {}, 0), 0)
  ghost const S3 := St([0, 1, -1], [0, -1, -1], [-1, -1], Thread(Idle, {0}, 0), Thread(TopLocked(1), {}, 0), 0)
  ghost const S4 := St([0, 1, -1], [0, 1, -1], [-1, -1], Thread(Idle, {0}, 0), Thread(Idle, {1}, 0), 0)
  ghost const S5 := St([0, 1, 1], [0, 1, -1], [-1, -1], Thread(Idle, {0}, 0), Thread(Locked(2, false), {1}, 0), 0)
  ghost const S6 := St([0, 1, 1], [0, 1, -1], [-1, -1], Thread(Idle, {0}, 0), Thread(StoreOwner(2), {1}, 0), 0)
  ghost const S7 := St([0, 1, 1], [0, 1, 1], [-1, -1], Thread(Idle, {0}, 0), Thread(Idle, {1, 2}, 0), 0)
  ghost const S8 := St([0, 1, 1], [0, 1, 1], [-1, -1], Thread(Busy(1), {0}, 0), Thread(Idle, {1, 2}, 0), 0)
  ghost const S9 := St([0, 1, 1], [0, 1, 1], [1, -1],
      Thread(WalkOwner(1, 1, [0], []), {0}, 0), Thread(Idle, {1, 2}, 0), 1)
  ghost const S10 := St([0, 1, 1], [0, 1, 1], [1, -1],
      Thread(WalkWaiting(1, [0, 1], [1]), {0}, 0), Thread(Idle, {1, 2}, 0), 1)
  ghost const S11 := St([0, -1, 1], [0, 1, 1], [1, -1],
      Thread(WalkWaiting(1, [0, 1], [1]), {0}, 0), Thread(Unlocked(1), {1, 2}, 0), 1)
  ghost const S12 := St([0, -1, 1], [0, -1, 1], [1, -1],
      Thread(WalkWaiting(1, [0, 1], [1]), {0}, 0), Thread(Idle, {2}, 0), 1)
  ghost const S13 := St([0, -1, 1], [0, -1, 1], [1, -1],
      Thread(WalkWaiting(1, [0, 1], [1]), {0}, 0), Thread(Busy(0), {2}, 0), 1)
  ghost const S14 := St([0, -1, 1], [0, -1, 1], [1, 0],
      Thread(WalkWaiting(1, [0, 1], [1]), {0}, 0), Thread(WalkOwner(0, 0, [1], []), {2}, 1), 2)
  ghost const S15 := St([0, -1, 1], [0, -1, 1], [1, 0],
      Thread(WalkOwner(1, 0, [0, 1], [1]), {0}, 0), Thread(WalkOwner(0, 0, [1], []), {2}, 1), 2)
  ghost const S16 := St([0, -1, 1], [0, -1, 1], [1, 0],
      Thread(WalkWaiting(1, [0, 1, 0], [1, 0]), {0}, 0), Thread(WalkOwner(0, 0, [1], []), {2}, 1), 2).(exited := true)

  ghost const FALSE_RUN := [S0, S1, S2, S3, S4, S5, S6, S7, S8, S9, S10, S11, S12, S13, S14, S15, S16]

  const ACTORS: seq<nat> := [0, 0, 1, 1, 1, 1, 1, 0, 0, 0, 1, 1, 1, 1, 0, 0]

  lemma HeldSets()
    ensures {} + {0 as nat} == {0 as nat} && {} + {1 as nat} == {1 as nat}
    ensures {1 as nat} + {2 as nat} == {1 as nat, 2 as nat} && {1 as nat, 2 as nat} - {1 as nat} == {2 as nat}
  {
  }

  lemma Displays()
    ensures [0 as nat] + [1 as nat] == [0 as nat, 1] && [] + [1 as nat] == [1 as nat]
    ensures [0 as nat, 1] + [0 as nat] == [0 as nat, 1, 0] && [1 as nat] + [0 as nat] == [1 as nat, 0]
  {
  }

  lemma Goes(s: State, s': State, t: nat, m: nat)
    requires Ledger(CASE, s) && Shaped(CASE, s) && t < 2 && m < 3 && !s.exited
    requires CallStep(CASE, s, s', t, m) || BookStep(CASE, s, s', t) || WalkStep(CASE, s, s', t)
    ensures Step(CASE, s, s', t) && Ledger(CASE, s') && Shaped(CASE, s')
  {
    hide CallStep, BookStep, WalkStep, GrantStep;
    StepKeepsLedger(CASE, s, s', t);
  }

  /** Thread 0 takes lock 0. */
  lemma ZeroTakesLock0()
    requires Ledger(CASE, S0)
    ensures Ledger(CASE, S2)
    ensures Step(CASE, S0, S1, 0) && Step(CASE, S1, S2, 0)
  {
    LedgerShape(CASE, S0);
    hide Ledger, Shaped, PcInRange, Step;
    HeldSets();
    Displays();
    assert CallStep(CASE, S0, S1, 0, 0);
    Goes(S0, S1, 0, 0);
    assert BookStep(CASE, S1, S2, 0);
    Goes(S1, S2, 0, 0);
  }

  /** Thread 1 takes lock 1. */
  lemma OneTakesLock1()
    requires Ledger(CASE, S2)
    ensures Ledger(CASE, S4)
    ensures Step(CASE, S2, S3, 1) && Step(CASE, S3, S4, 1)
  {
    LedgerShape(CASE, S2);
    hide Ledger, Shaped, PcInRange, Step;
    HeldSets();
    Displays();
    assert CallStep(CASE, S2, S3, 1, 1);
    Goes(S2, S3, 1, 1);
    assert BookStep(CASE, S3, S4, 1);
    Goes(S3, S4, 1, 0);
  }

  /** Thread 1 gets lock 2 as well. */
  lemma OneGetsLock2()
    requires Ledger(CASE, S4)
    ensures Ledger(CASE, S6)
    ensures Step(CASE, S4, S5, 1) && Step(CASE, S5, S6, 1)
  {
    LedgerShape(CASE, S4);
    hide Ledger, Shaped, PcInRange, Step;
    HeldSets();
    Displays();
    assert CallStep(CASE, S4, S5, 1, 2);
    Goes(S4, S5, 1, 2);
    assert BookStep(CASE, S5, S6, 1);
    Goes(S5, S6, 1, 0);
  }

  /** Thread 1 stores itself as its owner; thread 0 finds lock 1 busy. */
  lemma ZeroFindsLock1Busy()
    requires Ledger(CASE, S6)
    ensures Ledger(CASE, S8)
    ensures Step(CASE, S6, S7, 1) && Step(CASE, S7, S8, 0)
  {
    LedgerShape(CASE, S6);
    hide Ledger, Shaped, PcInRange, Step;
    HeldSets();
    Displays();
    assert BookStep(CASE, S6, S7, 1);
    Goes(S6, S7, 1, 0);
    assert CallStep(CASE, S7, S8, 0, 1);
    Goes(S7, S8, 0, 1);
  }

  /** Thread 0 announces lock 1 and loads its owner, thread 1. */
  lemma ZeroReadsOwner()
    requires Ledger(CASE, S8)
    ensures Ledger(CASE, S10)
    ensures Step(CASE, S8, S9, 0) && Step(CASE, S9, S10, 0)
  {
    LedgerShape(CASE, S8);
    hide Ledger, Shaped, PcInRange, Step;
    HeldSets();
    Displays();
    assert WalkStep(CASE, S8, S9, 0);
    Goes(S8, S9, 0, 0);
    assert WalkStep(CASE, S9, S10, 0);
    Goes(S9, S10, 0, 0);
  }

  /** Thread 1 unlocks lock 1. */
  lemma OneUnlocksLock1()
    requires Ledger(CASE, S10)
    ensures Ledger(CASE, S12)
    ensures Step(CASE, S10, S11, 1) && Step(CASE, S11, S12, 1)
  {
    LedgerShape(CASE, S10);
    hide Ledger, Shaped, PcInRange, Step;
    HeldSets();
    Displays();
    assert CallStep(CASE, S10, S11, 1, 1);
    Goes(S10, S11, 1, 1);
    assert BookStep(CASE, S11, S12, 1);
    Goes(S11, S12, 1, 0);
  }

  /** Thread 1 finds lock 0 busy and announces it. */
  lemma OneAnnouncesLock0()
    requires Ledger(CASE, S12)
    ensures Ledger(CASE, S14)
    ensures Step(CASE, S12, S13, 1) && Step(CASE, S13, S14, 1)
  {
    LedgerShape(CASE, S12);
    hide Ledger, Shaped, PcInRange, Step;
    HeldSets();
    Displays();
    assert CallStep(CASE, S12, S13, 1, 0);
    Goes(S12, S13, 1, 0);
    assert WalkStep(CASE, S13, S14, 1);
    Goes(S13, S14, 1, 0);
  }

  /** Thread 0 loads what thread 1 waits for, then the owner of that: itself. */
  lemma ZeroClosesChain()
    requires Ledger(CASE, S14)
    ensures Ledger(CASE, S16)
    ensures Step(CASE, S14, S15, 0) && Step(CASE, S15, S16, 0)
  {
    LedgerShape(CASE, S14);
    hide Ledger, Shaped, PcInRange, Step;
    HeldSets();
    Displays();
    assert WalkStep(CASE, S14, S15, 0);
    Goes(S14, S15, 0, 0);
    assert WalkStep(CASE, S15, S16, 0);
    Goes(S15, S16, 0, 0);
  }

  lemma FalseRunIsRun()
    ensures Run(CASE, FALSE_RUN, ACTORS) && Ledger(CASE, S16)
  {
    hide Step, Ledger, Shaped;
    InitLedger(CASE, S0);
    ZeroTakesLock0();
    OneTakesLock1();
    OneGetsLock2();
    ZeroFindsLock1Busy();
    ZeroReadsOwner();
    OneUnlocksLock1();
    OneAnnouncesLock0();
    ZeroClosesChain();
  }

  /** The detector's report need not be a real circular wait. */
  lemma ReportCanBeFalse()
    ensures Run(CASE, FALSE_RUN, ACTORS) && FALSE_RUN[|FALSE_RUN| - 1] == S16
    ensures Reports(CASE, S16, 0, [0, 1, 0], [1, 0]) && !RealCircularWait(CASE, S16, [0, 1, 0], [1, 0])
    ensures S16.holder[1] == INVALID_SLOT
  {
    hide Step, Ledger, Shaped, Run;
    FalseRunIsRun();
    LedgerShape(CASE, S16);
    assert !RealLink(CASE, S16, [0, 1, 0][0], [1, 0][0], [0, 1, 0][1]);
  }
}
