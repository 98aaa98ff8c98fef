/** The invariant behind the completeness of the actual-deadlock detector: in every reachable state the
    thread of a wait cycle that was last to store what it waits for is walking along exactly that cycle. */
module WaitDetect {
  import opened Slots
  import opened Pigeonhole
  import opened WaitMachine

  ghost function Succ(i: nat, k: nat): nat {
    if i + 1 == k then 0 else i + 1
  }

  /** The lock a thread is after. */
  ghost function Wanted(pc: Pc): nat {
    if pc.Idle? then 0 else pc.m
  }

  /** Each thread has announced a lock that the next one really holds. */
  ghost predicate WaitCycle(c: Config, s: State, cyc: seq<nat>) {
    && Shaped(c, s) && |cyc| > 0 && Distinct(cyc)
    && (forall i :: 0 <= i < |cyc| ==> cyc[i] < c.threads)
    && (forall i :: 0 <= i < |cyc| ==> Link(c, s, cyc[i], cyc[Succ(i, |cyc|)]))
  }

  ghost predicate Link(c: Config, s: State, t: nat, next: nat)
    requires Shaped(c, s)
  {
    t < c.threads && Waits(s.thr[t].pc) && Wanted(s.thr[t].pc) < c.locks && s.holder[Wanted(s.thr[t].pc)] == next
  }

  /** `cyc[0]` was the last of them to announce. */
  ghost predicate LastToWait(c: Config, s: State, cyc: seq<nat>)
    requires WaitCycle(c, s, cyc)
  {
    forall i :: 0 < i < |cyc| ==> s.thr[cyc[i]].stamp < s.thr[cyc[0]].stamp
  }

  /** The first `n` threads and locks of the cycle. */
  ghost predicate Recorded(c: Config, s: State, cyc: seq<nat>, threads: seq<nat>, locks: seq<nat>)
    requires WaitCycle(c, s, cyc)
  {
    && |locks| < |cyc| && threads == cyc[..|locks| + 1]
    && forall i :: 0 <= i < |locks| ==> locks[i] == Wanted(s.thr[cyc[i]].pc)
  }

  /** The walk of `cyc[0]` is following the cycle. */
  ghost predicate OnCourse(c: Config, s: State, cyc: seq<nat>)
    requires WaitCycle(c, s, cyc)
  {
    match s.thr[cyc[0]].pc
    case WalkOwner(m, cur, threads, locks) =>
      Recorded(c, s, cyc, threads, locks) && cur == Wanted(s.thr[cyc[|locks|]].pc)
    case WalkWaiting(m, threads, locks) => |locks| > 0 && Recorded(c, s, cyc, threads, locks)
    case _ => false
  }

  ghost predicate Detects(c: Config, s: State) {
    !s.exited ==> forall cyc :: WaitCycle(c, s, cyc) && LastToWait(c, s, cyc) ==> OnCourse(c, s, cyc)
  }

  // ---------------------------------------------------------------- steps of outsiders

  /** A step of a thread that is not on the cycle afterwards: the cycle was there before. */
  ghost predicate OutsiderStep(c: Config, s: State, s': State, t: nat)
    requires Shaped(c, s) && Shaped(c, s') && t < c.threads
  {
    && (forall u :: 0 <= u < c.threads && u != t ==> s'.thr[u] == s.thr[u])
    && (forall m :: 0 <= m < c.locks && s'.holder[m] != s.holder[m] ==>
        s'.holder[m] == t || s'.holder[m] == INVALID_SLOT)
  }

  lemma CycleWasThere(c: Config, s: State, s': State, t: nat, cyc: seq<nat>)
    requires Shaped(c, s) && Shaped(c, s') && t < c.threads && OutsiderStep(c, s, s', t)
    requires t !in cyc && WaitCycle(c, s', cyc)
    ensures WaitCycle(c, s, cyc)
    ensures LastToWait(c, s', cyc) <==> LastToWait(c, s, cyc)
    ensures OnCourse(c, s', cyc) <==> OnCourse(c, s, cyc)
  {
    forall i | 0 <= i < |cyc|
      ensures s'.thr[cyc[i]] == s.thr[cyc[i]] && Link(c, s, cyc[i], cyc[Succ(i, |cyc|)])
    {
      assert cyc[i] != t && cyc[Succ(i, |cyc|)] != t;
      assert Link(c, s', cyc[i], cyc[Succ(i, |cyc|)]);
    }
  }

  lemma StepIsOutsider(c: Config, s: State, s': State, t: nat)
    requires Shaped(c, s') && Step(c, s, s', t)
    ensures OutsiderStep(c, s, s', t)
  {
    hide Shaped, Step;
    assert Shaped(c, s) by { StepShape(c, s, s', t); }
    StepTouches(c, s, s', t);
  }

  lemma StepTouches(c: Config, s: State, s': State, t: nat)
    requires Step(c, s, s', t)
    ensures |s'.thr| == |s.thr| && |s'.holder| == |s.holder|
    ensures forall u :: 0 <= u < c.threads && u != t ==> s'.thr[u] == s.thr[u]
    ensures forall m :: 0 <= m < c.locks && s'.holder[m] != s.holder[m] ==>
            s'.holder[m] == t || s'.holder[m] == INVALID_SLOT
    ensures Waits(s'.thr[t].pc) ==> WalkStep(c, s, s', t)
  {
    assert PcInRange(c, t, s.thr[t].pc);
    if m: nat :| m < c.locks && CallStep(c, s, s', t, m) {
    } else if GrantStep(c, s, s', t) {
    } else if BookStep(c, s, s', t) {
    }
  }

  // ---------------------------------------------------------------- steps of members

  /** On the cycle, the recorded owner of a wanted lock is the next thread. */
  lemma OwnerOnCycle(c: Config, s: State, cyc: seq<nat>, i: nat)
    requires Ledger(c, s) && WaitCycle(c, s, cyc) && i < |cyc|
    ensures Wanted(s.thr[cyc[i]].pc) < |s.owner|
    ensures s.owner[Wanted(s.thr[cyc[i]].pc)] == cyc[Succ(i, |cyc|)]
  {
    var k := Succ(i, |cyc|);
    var t, b := cyc[i], cyc[k];
    assert Link(c, s, t, b);
    assert Link(c, s, b, cyc[Succ(k, |cyc|)]);
    HeldByWaiterIsOwned(c, s, b, Wanted(s.thr[t].pc));
  }

  /** A waiting thread is the recorded owner of what it really holds. */
  lemma HeldByWaiterIsOwned(c: Config, s: State, b: nat, m: nat)
    requires Ledger(c, s) && Shaped(c, s) && b < c.threads && m < c.locks && s.holder[m] == b && Waits(s.thr[b].pc)
    ensures s.owner[m] == b
  {
    assert LockLedger(c, s, m);
    assert ReallyHolds(s.thr[b], m);
  }

  /** A walk step moves no holder and no announcement, so it moves no cycle; only the announcement
      itself may complete one. */
  lemma CycleSurvivesWalk(c: Config, s: State, s': State, t: nat, cyc: seq<nat>)
    requires Ledger(c, s) && Shaped(c, s') && t < c.threads && WalkStep(c, s, s', t) && !s.thr[t].pc.Busy?
    requires WaitCycle(c, s', cyc)
    ensures WaitCycle(c, s, cyc) && (LastToWait(c, s', cyc) <==> LastToWait(c, s, cyc))
    ensures forall i :: 0 <= i < |cyc| ==> Wanted(s'.thr[cyc[i]].pc) == Wanted(s.thr[cyc[i]].pc)
  {
    forall i | 0 <= i < |cyc|
      ensures Link(c, s, cyc[i], cyc[Succ(i, |cyc|)]) && s'.thr[cyc[i]].stamp == s.thr[cyc[i]].stamp
      ensures Wanted(s'.thr[cyc[i]].pc) == Wanted(s.thr[cyc[i]].pc)
    {
      assert Link(c, s', cyc[i], cyc[Succ(i, |cyc|)]);
    }
  }

  /** What the last announcer reads is the cycle, whatever else happens meanwhile: each of its steps
      records one more link, and the step after the last link answers yes. */
  lemma WalkerStaysOnCourse(c: Config, s: State, s': State, cyc: seq<nat>)
    requires Ledger(c, s) && !s.exited && WaitCycle(c, s, cyc) && OnCourse(c, s, cyc)
    requires WalkStep(c, s, s', cyc[0]) && WaitCycle(c, s', cyc) && SameWants(s, s', cyc)
    ensures s'.exited || (OnCourse(c, s', cyc) && Progress(s'.thr[cyc[0]].pc) == Progress(s.thr[cyc[0]].pc) + 1)
    ensures s'.exited ==> ClosedOn(s', cyc)
  {
    hide Ledger, WaitCycle, LastToWait;
    CycleBounds(c, s, cyc);
    match s.thr[cyc[0]].pc
    case WalkOwner(m, cur, threads, locks) =>
      OwnerOnCycle(c, s, cyc, |locks|);
      OneMoreLink(c, s, s', cyc, threads, locks);
    case WalkWaiting(m, threads, locks) =>
      WaitOnCycle(c, s, cyc, |locks|);
      assert threads[|threads| - 1] == cyc[|locks|];
  }

  /** How far the walk has come: one load per step. */
  ghost function Progress(pc: Pc): int {
    match pc
    case WalkOwner(_, _, _, locks) => 2 * |locks|
    case WalkWaiting(_, _, locks) => 2 * |locks| - 1
    case _ => -1
  }

  ghost predicate SameWants(s: State, s': State, cyc: seq<nat>) {
    |s.thr| == |s'.thr| &&
    forall i :: 0 <= i < |cyc| ==> cyc[i] < |s.thr| && Wanted(s'.thr[cyc[i]].pc) == Wanted(s.thr[cyc[i]].pc)
  }

  /** The chain that `cyc[0]` reports is exactly the cycle. */
  ghost predicate ClosedOn(s: State, cyc: seq<nat>)
    requires |cyc| > 0
  {
    && (forall i :: 0 <= i < |cyc| ==> cyc[i] < |s.thr|)
    && s.thr[cyc[0]].pc.WalkWaiting?
    && s.thr[cyc[0]].pc.threads == cyc + [cyc[0]] && |s.thr[cyc[0]].pc.locks| == |cyc|
    && (forall i :: 0 <= i < |cyc| ==> s.thr[cyc[0]].pc.locks[i] == Wanted(s.thr[cyc[i]].pc))
  }

  lemma CycleBounds(c: Config, s: State, cyc: seq<nat>)
    requires WaitCycle(c, s, cyc)
    ensures Shaped(c, s) && 0 < |cyc| <= c.threads && (forall i :: 0 <= i < |cyc| ==> cyc[i] < c.threads)
    ensures forall i :: 0 < i < |cyc| ==> cyc[i] != cyc[0]
  {
    DistinctFits(cyc, c.threads);
  }

  lemma OneMoreLink(c: Config, s: State, s': State, cyc: seq<nat>, threads: seq<nat>, locks: seq<nat>)
    requires WaitCycle(c, s, cyc) && WaitCycle(c, s', cyc) && SameWants(s, s', cyc) &&
             Recorded(c, s, cyc, threads, locks)
    ensures var cur, next := Wanted(s.thr[cyc[|locks|]].pc), cyc[Succ(|locks|, |cyc|)];
            && (forall i :: 0 <= i <= |locks| ==> (locks + [cur])[i] == Wanted(s'.thr[cyc[i]].pc))
            && (|locks| + 1 < |cyc| ==> Recorded(c, s', cyc, threads + [next], locks + [cur]))
            && (|locks| + 1 == |cyc| ==> threads + [next] == cyc + [cyc[0]])
  {
    hide WaitCycle;
    assert |cyc| > 0;
  }

  lemma WaitOnCycle(c: Config, s: State, cyc: seq<nat>, i: nat)
    requires Ledger(c, s) && WaitCycle(c, s, cyc) && i < |cyc|
    ensures s.waiting[cyc[i]] == Wanted(s.thr[cyc[i]].pc)
  {
    assert ThreadLedger(s, cyc[i]) && Link(c, s, cyc[i], cyc[Succ(i, |cyc|)]);
  }

  /** The announcement that completes a cycle makes its thread the last announcer, at the start of
      its walk. */
  lemma AnnouncerStarts(c: Config, s: State, s': State, t: nat, cyc: seq<nat>)
    requires Ledger(c, s) && t < c.threads && s.thr[t].pc.Busy? && WalkStep(c, s, s', t)
    requires WaitCycle(c, s', cyc) && t in cyc && LastToWait(c, s', cyc)
    ensures OnCourse(c, s', cyc)
  {
    assert Link(c, s', cyc[0], cyc[Succ(0, |cyc|)]);
    assert ThreadLedger(s, cyc[0]);
    assert cyc[0] == t;
    assert [t] == cyc[..1];
  }

  lemma StepKeepsDetects(c: Config, s: State, s': State, t: nat)
    requires Ledger(c, s) && Ledger(c, s') && Detects(c, s) && Step(c, s, s', t)
    ensures Detects(c, s')
  {
    if !s'.exited {
      forall cyc | WaitCycle(c, s', cyc) && LastToWait(c, s', cyc)
        ensures OnCourse(c, s', cyc)
      {
        CycleAfterStep(c, s, s', t, cyc);
      }
    }
  }

  lemma CycleAfterStep(c: Config, s: State, s': State, t: nat, cyc: seq<nat>)
    requires Ledger(c, s) && Ledger(c, s') && Detects(c, s) && Step(c, s, s', t) && !s'.exited
    requires WaitCycle(c, s', cyc) && LastToWait(c, s', cyc)
    ensures OnCourse(c, s', cyc)
  {
    hide Step, CallStep, GrantStep, BookStep, WalkStep, Ledger, OnCourse;
    StepShape(c, s, s', t);
    StepTouches(c, s, s', t);
    StepInThreads(c, s, s', t);
    var here := s.thr[t].pc;
    if t !in cyc {
      StepIsOutsider(c, s, s', t);
      CycleWasThere(c, s, s', t, cyc);
    } else {
      var i :| 0 <= i < |cyc| && cyc[i] == t;
      assert Link(c, s', cyc[i], cyc[Succ(i, |cyc|)]);
      if here.Busy? {
        AnnouncerStarts(c, s, s', t, cyc);
      } else {
        CycleSurvivesWalk(c, s, s', t, cyc);
        if i == 0 {
          WalkerStaysOnCourse(c, s, s', cyc);
        } else {
          assert cyc[0] != t;
          CourseOfOthers(c, s, s', cyc);
        }
      }
    }
  }

  lemma StepInThreads(c: Config, s: State, s': State, t: nat)
    requires Step(c, s, s', t)
    ensures t < c.threads && Shaped(c, s)
  {
  }

  /** Another thread's step leaves the walk where it is. */
  lemma CourseOfOthers(c: Config, s: State, s': State, cyc: seq<nat>)
    requires WaitCycle(c, s, cyc) && WaitCycle(c, s', cyc) && OnCourse(c, s, cyc)
    requires s'.thr[cyc[0]] == s.thr[cyc[0]]
    requires forall i :: 0 <= i < |cyc| ==> Wanted(s'.thr[cyc[i]].pc) == Wanted(s.thr[cyc[i]].pc)
    ensures OnCourse(c, s', cyc)
  {
  }

  lemma {:induction false} RunKeepsDetects(c: Config, run: seq<State>, actors: seq<nat>)
    requires Run(c, run, actors)
    ensures Detects(c, run[|run| - 1])
  {
    hide Ledger, Step, Detects;
    var n := |actors|;
    if n == 0 {
      InitDetects(c, run[0]);
    } else {
      RunKeepsDetects(c, run[..n], actors[..n - 1]);
      RunKeepsLedger(c, run[..n], actors[..n - 1]);
      RunKeepsLedger(c, run, actors);
      assert Step(c, run[n - 1], run[n - 1 + 1], actors[n - 1]);
      StepKeepsDetects(c, run[n - 1], run[n], actors[n - 1]);
    }
  }

  lemma InitDetects(c: Config, s: State)
    requires Init(c, s)
    ensures Detects(c, s)
  {
    forall cyc
      ensures !WaitCycle(c, s, cyc)
    {
      if WaitCycle(c, s, cyc) {
        FirstMemberWaits(c, s, cyc);
        assert false;
      }
    }
  }

  lemma FirstMemberWaits(c: Config, s: State, cyc: seq<nat>)
    requires WaitCycle(c, s, cyc)
    ensures |cyc| > 0 && cyc[0] < c.threads && |s.thr| == c.threads && Waits(s.thr[cyc[0]].pc)
  {
    assert Link(c, s, cyc[0], cyc[Succ(0, |cyc|)]);
  }
}
