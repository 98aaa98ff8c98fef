/** What the detector's completeness comes to: a wait cycle cannot be left, its last announcer finishes
    the walk within a fixed number of its own steps and reports exactly that cycle, and no set of
    threads is ever silently deadlocked. */
module WaitOutcome {
  import opened Slots
  import opened Pigeonhole
  import opened WaitMachine
  import opened WaitDetect

  // ---------------------------------------------------------------- a wait cycle is frozen

  /** Only the holder of a lock takes it away, and a held lock is not taken. */
  lemma HolderMoves(c: Config, s: State, s': State, t: nat)
    requires Ledger(c, s) && Step(c, s, s', t)
    ensures |s'.holder| == |s.holder|
    ensures forall m :: 0 <= m < c.locks && s'.holder[m] != s.holder[m] ==> s.holder[m] in {INVALID_SLOT, t as int}
    ensures Waits(s.thr[t].pc) ==>
              WalkStep(c, s, s', t) || (s.thr[t].pc.Blocked? && s.holder[s.thr[t].pc.m] == INVALID_SLOT)
  {
    hide WalkStep, GrantStep, BookStep;
    assert PcInRange(c, t, s.thr[t].pc);
    if m: nat :| m < c.locks && CallStep(c, s, s', t, m) {
      assert LockLedger(c, s, m) && ThreadLedger(s, t);
    } else if GrantStep(c, s, s', t) {
      GrantMoves(c, s, s', t);
    } else if BookStep(c, s, s', t) {
      BookMoves(c, s, s', t);
    } else {
      WalkMoves(c, s, s', t);
    }
  }

  lemma GrantMoves(c: Config, s: State, s': State, t: nat)
    requires Shaped(c, s) && t < c.threads && GrantStep(c, s, s', t)
    ensures |s'.holder| == |s.holder|
    ensures forall m :: 0 <= m < c.locks && s'.holder[m] != s.holder[m] ==> s.holder[m] == INVALID_SLOT
    ensures s.thr[t].pc.TopBlocked? ||
            (s.thr[t].pc.Blocked? && s.thr[t].pc.m < c.locks && s.holder[s.thr[t].pc.m] == INVALID_SLOT)
  {
    assert PcInRange(c, t, s.thr[t].pc);
  }

  lemma BookMoves(c: Config, s: State, s': State, t: nat)
    requires Shaped(c, s) && t < c.threads && BookStep(c, s, s', t)
    ensures s'.holder == s.holder && !Waits(s.thr[t].pc)
  {
    assert PcInRange(c, t, s.thr[t].pc);
  }

  lemma WalkMoves(c: Config, s: State, s': State, t: nat)
    requires Shaped(c, s) && t < c.threads && WalkStep(c, s, s', t)
    ensures |s'.thr| == |s.thr| && s'.holder == s.holder && Waits(s'.thr[t].pc)
    ensures Wanted(s'.thr[t].pc) == Wanted(s.thr[t].pc)
    ensures Waits(s.thr[t].pc) ==> s'.thr[t].stamp == s.thr[t].stamp
  {
    assert PcInRange(c, t, s.thr[t].pc);
  }

  /** Every step, whoever takes it, leaves a wait cycle as it is. */
  lemma CycleIsFrozen(c: Config, s: State, s': State, t: nat, cyc: seq<nat>)
    requires Ledger(c, s) && Ledger(c, s') && Step(c, s, s', t) && WaitCycle(c, s, cyc)
    ensures WaitCycle(c, s', cyc) && SameWants(s, s', cyc)
    ensures LastToWait(c, s, cyc) ==> LastToWait(c, s', cyc)
    ensures t in cyc ==> WalkStep(c, s, s', t)
  {
    StepShape(c, s, s', t);
    StepInThreads(c, s, s', t);
    StepTouches(c, s, s', t);
    HolderMoves(c, s, s', t);
    hide Ledger, Step, CallStep, GrantStep, BookStep, WalkStep, ReallyHolds;
    forall i | 0 <= i < |cyc|
      ensures Link(c, s', cyc[i], cyc[Succ(i, |cyc|)]) && s'.thr[cyc[i]].stamp == s.thr[cyc[i]].stamp
      ensures Wanted(s'.thr[cyc[i]].pc) == Wanted(s.thr[cyc[i]].pc)
      ensures cyc[i] == t ==> WalkStep(c, s, s', t)
    {
      var next := cyc[Succ(i, |cyc|)];
      assert Link(c, s, cyc[i], next) && Link(c, s, next, cyc[Succ(Succ(i, |cyc|), |cyc|)]);
      if cyc[i] == t {
        WalkMoves(c, s, s', t);
      }
      if next == t {
        WalkMoves(c, s, s', t);
      }
    }
  }

  // ---------------------------------------------------------------- main result 2: detection is inevitable

  ghost function StepsOf(actors: seq<nat>, t: nat): nat {
    if actors == [] then 0 else StepsOf(actors[..|actors| - 1], t) + if actors[|actors| - 1] == t then 1 else 0
  }

  /** What holds `|actors|` steps after the state in which `cyc` was found with `cyc[0]` its last announcer. */
  ghost predicate Heading(c: Config, s0: State, s: State, cyc: seq<nat>, actors: seq<nat>)
    requires |cyc| > 0
  {
    && WaitCycle(c, s0, cyc) && OnCourse(c, s0, cyc) && WaitCycle(c, s, cyc) && LastToWait(c, s, cyc) &&
        OnCourse(c, s, cyc)
    && Progress(s.thr[cyc[0]].pc) == Progress(s0.thr[cyc[0]].pc) + StepsOf(actors, cyc[0])
  }

  /** From a wait cycle on, whatever the other threads do: the cycle stays, and each step of its last
      announcer is one more load, at most `2 * |cyc| - 1` in all; the process exits no later than
      that, and if it is this thread that ends it then its report is exactly the cycle. */
  lemma {:induction false} DetectionIsInevitable(c: Config, before: seq<State>, past: seq<nat>,
                                                after: seq<State>, rest: seq<nat>, cyc: seq<nat>)
    requires Run(c, before + after, past + rest) && |before| == |past| + 1 && |after| == |rest|
    requires var s0 := before[|before| - 1]; !s0.exited && WaitCycle(c, s0, cyc) && LastToWait(c, s0, cyc)
    ensures var s := (before + after)[|before + after| - 1];
            && WaitCycle(c, s, cyc) && StepsOf(rest, cyc[0]) < 2 * |cyc|
            && (!s.exited ==> Heading(c, before[|before| - 1], s, cyc, rest))
            && (s.exited && rest != [] && rest[|rest| - 1] == cyc[0] ==> ClosedOn(s, cyc))
    decreases |after|
  {
    hide Run, Ledger, WaitCycle, LastToWait, OnCourse, Step, Detects, ClosedOn, Heading, SameWants;
    var run, actors := before + after, past + rest;
    var n, k := |actors|, |rest|;
    if k == 0 {
      assert run == before && actors == past;
      HeadingStarts(c, before, past, cyc);
    } else {
      assert before + after[..k - 1] == run[..n] && past + rest[..k - 1] == actors[..n - 1];
      RunPrefix(c, run, actors);
      DetectionIsInevitable(c, before, past, after[..k - 1], rest[..k - 1], cyc);
      StepShape(c, run[n - 1], run[n], actors[n - 1]);
      assert (before + after[..k - 1])[n - 1] == run[n - 1] && rest[k - 1] == actors[n - 1];
      HeadingAdvances(c, before[|before| - 1], run[n - 1], run[n], cyc, rest);
    }
  }

  lemma RunPrefix(c: Config, run: seq<State>, actors: seq<nat>)
    requires Run(c, run, actors) && |actors| > 0
    ensures Run(c, run[..|actors|], actors[..|actors| - 1])
    ensures var n := |actors|; Ledger(c, run[n - 1]) && Ledger(c, run[n]) && Step(c, run[n - 1], run[n], actors[n - 1])
  {
    hide Ledger, Step, Init;
    var n := |actors|;
    RunKeepsLedger(c, run[..n], actors[..n - 1]);
    RunKeepsLedger(c, run, actors);
    assert Step(c, run[n - 1], run[n - 1 + 1], actors[n - 1]);
  }

  lemma HeadingStarts(c: Config, run: seq<State>, actors: seq<nat>, cyc: seq<nat>)
    requires Run(c, run, actors)
    requires var s := run[|run| - 1]; !s.exited && WaitCycle(c, s, cyc) && LastToWait(c, s, cyc)
    ensures |cyc| > 0 && Heading(c, run[|run| - 1], run[|run| - 1], cyc, [])
  {
    RunKeepsDetects(c, run, actors);
  }

  lemma ProgressBound(c: Config, s: State, cyc: seq<nat>)
    requires WaitCycle(c, s, cyc) && OnCourse(c, s, cyc)
    ensures 0 <= Progress(s.thr[cyc[0]].pc) <= 2 * |cyc| - 2
  {
  }

  lemma HeadingAdvances(c: Config, s0: State, s: State, s': State, cyc: seq<nat>, actors: seq<nat>)
    requires Ledger(c, s) && Ledger(c, s') && |actors| > 0 && Step(c, s, s', actors[|actors| - 1])
    requires |cyc| > 0 && Heading(c, s0, s, cyc, actors[..|actors| - 1])
    ensures WaitCycle(c, s', cyc) && StepsOf(actors, cyc[0]) < 2 * |cyc|
    ensures !s'.exited ==> Heading(c, s0, s', cyc, actors)
    ensures s'.exited && actors[|actors| - 1] == cyc[0] ==> ClosedOn(s', cyc)
  {
    hide Ledger, Step, WalkStep, LastToWait, OnCourse, Shaped, ClosedOn, WaitCycle, SameWants, Progress;
    var t := actors[|actors| - 1];
    StepShape(c, s, s', t);
    ProgressBound(c, s0, cyc);
    ProgressBound(c, s, cyc);
    CycleIsFrozen(c, s, s', t, cyc);
    if t == cyc[0] {
      WalkerStaysOnCourse(c, s, s', cyc);
      if !s'.exited {
        ProgressBound(c, s', cyc);
      }
    } else {
      OthersKeepCourse(c, s, s', t, cyc);
    }
  }

  lemma OthersKeepCourse(c: Config, s: State, s': State, t: nat, cyc: seq<nat>)
    requires Step(c, s, s', t) && WaitCycle(c, s, cyc) && WaitCycle(c, s', cyc) && OnCourse(c, s, cyc)
    requires SameWants(s, s', cyc) && t != cyc[0]
    ensures OnCourse(c, s', cyc) && Progress(s'.thr[cyc[0]].pc) == Progress(s.thr[cyc[0]].pc)
  {
    StepTouches(c, s, s', t);
    hide Ledger, Step, LastToWait, OnCourse, Shaped;
    assert s'.thr[cyc[0]] == s.thr[cyc[0]];
    CourseOfOthers(c, s, s', cyc);
  }

  /** The last announcer is never held up: it always has its next load to do. */
  lemma WalkerCanStep(c: Config, run: seq<State>, actors: seq<nat>, cyc: seq<nat>) returns (s': State)
    requires Run(c, run, actors)
    requires var s := run[|run| - 1]; !s.exited && WaitCycle(c, s, cyc) && LastToWait(c, s, cyc)
    ensures Run(c, run + [s'], actors + [cyc[0]])
  {
    var s := run[|run| - 1];
    RunKeepsDetects(c, run, actors);
    s' := WalkSuccessor(c, s, cyc);
    ExtendRun(c, run, actors, s', cyc[0]);
  }

  lemma WalkSuccessor(c: Config, s: State, cyc: seq<nat>) returns (s': State)
    requires !s.exited && WaitCycle(c, s, cyc) && OnCourse(c, s, cyc)
    ensures Step(c, s, s', cyc[0])
  {
    var t := cyc[0];
    match s.thr[t].pc
    case WalkOwner(m, cur, threads, locks) =>
      var o := s.owner[cur];
      if |locks| >= c.threads || o == INVALID_SLOT {
        s' := At(s, t, Blocked(m));
      } else {
        s' := At(s, t, WalkWaiting(m, threads + [o], locks + [cur])).(exited := o == t);
      }
      assert WalkStep(c, s, s', t);
    case WalkWaiting(m, threads, locks) =>
      var w := s.waiting[threads[|threads| - 1]];
      s' := if w == INVALID_SLOT then At(s, t, Blocked(m)) else At(s, t, WalkOwner(m, w, threads, locks));
      assert WalkStep(c, s, s', t);
  }

  lemma ExtendRun(c: Config, run: seq<State>, actors: seq<nat>, s': State, t: nat)
    requires Run(c, run, actors) && Step(c, run[|run| - 1], s', t)
    ensures Run(c, run + [s'], actors + [t])
  {
    hide Step, Init;
    var run', actors' := run + [s'], actors + [t];
    forall i | 0 <= i < |actors'|
      ensures Step(c, run'[i], run'[i + 1], actors'[i])
    {
      if i < |actors| {
        assert Step(c, run[i], run[i + 1], actors[i]);
      }
    }
  }

  // ---------------------------------------------------------------- main result 3: no silent deadlock

  lemma {:induction false} LatestStamp(s: State, cyc: seq<nat>, n: nat) returns (k: nat)
    requires 0 < n <= |cyc| && forall i :: 0 <= i < |cyc| ==> cyc[i] < |s.thr|
    ensures k < n && forall i :: 0 <= i < n ==> s.thr[cyc[i]].stamp <= s.thr[cyc[k]].stamp
  {
    k := 0;
    if n > 1 {
      k := LatestStamp(s, cyc, n - 1);
      if s.thr[cyc[k]].stamp < s.thr[cyc[n - 1]].stamp {
        k := n - 1;
      }
    }
  }

  /** A cycle may be read from any of its members. */
  lemma Rotated(c: Config, s: State, cyc: seq<nat>, k: nat)
    requires WaitCycle(c, s, cyc) && k < |cyc|
    ensures WaitCycle(c, s, cyc[k..] + cyc[..k])
  {
    hide Shaped;
    var rot := cyc[k..] + cyc[..k];
    var n := |cyc|;
    forall i | 0 <= i < n
      ensures rot[i] == cyc[if i + k < n then i + k else i + k - n]
      ensures Link(c, s, rot[i], rot[Succ(i, n)])
    {
      var j := if i + k < n then i + k else i + k - n;
      assert Link(c, s, cyc[j], cyc[Succ(j, n)]);
      assert rot[Succ(i, n)] == cyc[Succ(j, n)];
    }
  }

  /** In every reachable state that has not ended, every wait cycle has a member that is in the middle
      of its walk along that very cycle. */
  lemma SomeoneIsWalking(c: Config, run: seq<State>, actors: seq<nat>, cyc: seq<nat>) returns (k: nat)
    requires Run(c, run, actors) && !run[|run| - 1].exited && WaitCycle(c, run[|run| - 1], cyc)
    ensures k < |cyc|
    ensures var s, rot := run[|run| - 1], cyc[k..] + cyc[..k];
            WaitCycle(c, s, rot) && LastToWait(c, s, rot) && OnCourse(c, s, rot)
  {
    var s := run[|run| - 1];
    hide Run, Step, OnCourse;
    RunKeepsLedger(c, run, actors);
    RunKeepsDetects(c, run, actors);
    k := LatestStamp(s, cyc, |cyc|);
    Rotated(c, s, cyc, k);
    var rot := cyc[k..] + cyc[..k];
    forall i | 0 < i < |rot|
      ensures s.thr[rot[i]].stamp < s.thr[rot[0]].stamp
    {
      assert rot[i] in cyc && rot[i] != rot[0];
      assert Link(c, s, rot[i], rot[Succ(i, |rot|)]) && Link(c, s, rot[0], rot[Succ(0, |rot|)]);
      DistinctStamps(c, s, rot[i], rot[0]);
    }
  }

  lemma DistinctStamps(c: Config, s: State, t: nat, u: nat)
    requires Ledger(c, s) && t < c.threads && u < c.threads && t != u && Waits(s.thr[t].pc) && Waits(s.thr[u].pc)
    ensures s.thr[t].stamp != s.thr[u].stamp
  {
    if u < t {
      assert s.thr[u].stamp != s.thr[t].stamp;
    }
  }

  /** Parked inside the real lock, for a lock that `next` really holds. */
  ghost predicate ParkedBehind(c: Config, s: State, t: nat, next: nat)
    requires Shaped(c, s)
  {
    t < c.threads && (s.thr[t].pc.Blocked? || s.thr[t].pc.TopBlocked?) && s.thr[t].pc.m < c.locks &&
        s.holder[s.thr[t].pc.m] == next
  }

  /** A real deadlock: a ring of threads, each inside the real lock behind the next. */
  ghost predicate Deadlocked(c: Config, s: State, cyc: seq<nat>) {
    && Shaped(c, s) && |cyc| > 0 && Distinct(cyc)
    && (forall i :: 0 <= i < |cyc| ==> cyc[i] < c.threads)
    && (forall i :: 0 <= i < |cyc| ==> ParkedBehind(c, s, cyc[i], cyc[Succ(i, |cyc|)]))
  }

  lemma SomeoneIsNotParked(c: Config, run: seq<State>, actors: seq<nat>, cyc: seq<nat>) returns (k: nat)
    requires Run(c, run, actors) && !run[|run| - 1].exited && WaitCycle(c, run[|run| - 1], cyc)
    ensures k < |cyc| && !ParkedBehind(c, run[|run| - 1], cyc[k], cyc[Succ(k, |cyc|)])
  {
    k := SomeoneIsWalking(c, run, actors, cyc);
    var rot := cyc[k..] + cyc[..k];
    assert rot[0] == cyc[k];
  }

  /** No run, under any interleaving, ever gets into a deadlock: the process has been ended before. A
      thread that takes its first lock never announces itself, but holds nothing anyone could wait for. */
  lemma NoSilentDeadlock(c: Config, run: seq<State>, actors: seq<nat>, cyc: seq<nat>)
    requires Run(c, run, actors) && !run[|run| - 1].exited
    ensures !Deadlocked(c, run[|run| - 1], cyc)
  {
    var s := run[|run| - 1];
    hide Run, Step, Ledger;
    if Deadlocked(c, s, cyc) {
      RunKeepsLedger(c, run, actors);
      DeadlockIsWaitCycle(c, s, cyc);
      var k := SomeoneIsNotParked(c, run, actors, cyc);
      assert false;
    }
  }

  lemma DeadlockIsWaitCycle(c: Config, s: State, cyc: seq<nat>)
    requires Ledger(c, s) && Deadlocked(c, s, cyc)
    ensures WaitCycle(c, s, cyc)
  {
    forall i | 0 <= i < |cyc|
      ensures Link(c, s, cyc[i], cyc[Succ(i, |cyc|)])
    {
      assert ParkedBehind(c, s, cyc[i], cyc[Succ(i, |cyc|)]);
      var before := if i == 0 then |cyc| - 1 else i - 1;
      assert ParkedBehind(c, s, cyc[before], cyc[Succ(before, |cyc|)]);
      assert ThreadLedger(s, cyc[i]) && LockLedger(c, s, s.thr[cyc[before]].pc.m);
    }
  }
}
