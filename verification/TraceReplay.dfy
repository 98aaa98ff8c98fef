/** What traces mean. A trace is replayed through the held state and the synchronous graph: the locks held
    and the pairs observed are those that the code holds and records. */
module TraceReplay {
  import opened Digraph
  import opened GlobalBackend
  import opened HeldStack
  import opened HeldState
  import opened Reports
  import opened Traces
  import Words

  /** An acquisition goes on top. */
  lemma HeldAfterAcquire(log: seq<Op>, lock: nat)
    ensures Held(log + [Acquire(lock)]) == Held(log) + [lock]
  {
    assert (log + [Acquire(lock)])[..|log|] == log;
  }

  /** A release takes out the topmost occurrence of its lock and nothing else; the rest keeps its order. */
  lemma HeldAfterRelease(log: seq<Op>, lock: nat)
    ensures var before, after := Held(log), Held(log + [Release(lock)]);
            && multiset(after) == multiset(before) - multiset{lock}
            && (lock !in before ==> after == before)
            && (lock in before ==> exists i :: 0 <= i < |before| && before[i] == lock && lock !in before[i + 1..] &&
                                               after == before[..i] + before[i + 1..])
  {
    assert (log + [Release(lock)])[..|log|] == log;
    RemoveTopMultiset(Held(log), lock);
    if lock in Held(log) {
      var i := RemoveTopDeletesLast(Held(log), lock);
    } else {
      RemoveTopOfAbsent(Held(log), lock);
    }
  }

  /** Operation `k` acquires the second lock of the pair while the first is held. */
  ghost predicate ObservedAt(log: seq<Op>, e: Edge, k: nat) {
    k < |log| && log[k] == Acquire(e.1) && e.0 in Held(log[..k]) && e.0 != e.1
  }

  lemma ObservedAtInPrefix(log: seq<Op>, n: nat, e: Edge, k: nat)
    requires k < n <= |log|
    ensures ObservedAt(log[..n], e, k) <==> ObservedAt(log, e, k)
  {
    assert log[..n][..k] == log[..k];
  }

  /** A pair is observed exactly when some acquisition of the second lock found the first one held. */
  lemma {:induction false} ObservedIff(log: seq<Op>, e: Edge)
    ensures e in Observed(log) <==> exists k :: ObservedAt(log, e, k)
  {
    hide ObservedAt, Held;
    if log == [] {
      forall k: nat
        ensures !ObservedAt(log, e, k)
      {
        NeverBeyond(log, e, k);
      }
    } else {
      var n := |log| - 1;
      ObservedIff(log[..n], e);
      ObservedLast(log, e);
      if k: nat :| ObservedAt(log[..n], e, k) {
        NeverBeyond(log[..n], e, k);
        ObservedAtInPrefix(log, n, e, k);
      }
      if k: nat :| ObservedAt(log, e, k) {
        NeverBeyond(log, e, k);
        if k < n {
          ObservedAtInPrefix(log, n, e, k);
        }
      }
    }
  }

  lemma NeverBeyond(log: seq<Op>, e: Edge, k: nat)
    ensures ObservedAt(log, e, k) ==> k < |log|
  {
  }

  lemma ObservedLast(log: seq<Op>, e: Edge)
    requires log != []
    ensures var n := |log| - 1;
            e in Observed(log) <==> e in Observed(log[..n]) || ObservedAt(log, e, n)
  {
    hide Held;
  }

  /** The held stack never outgrows its array: what the source panics at is excluded. */
  ghost predicate Fits(log: seq<Op>, maxHeld: nat) {
    forall k :: 0 <= k <= |log| ==> |Held(log[..k])| <= maxHeld
  }

  /** One thread's acquisition or release in the synchronous backend: on a nested acquisition first the
      graph, then the held state; on a release the held state. */
  method ReplayOne(op: Op, state: ThreadState, graph: GlobalGraph, threadSlot: int, acquirePc: nat)
    requires state.Valid() && graph.Valid() && op.lock < graph.slotCount <= state.maxSlots
    requires op.Acquire? ==> state.count < state.maxHeld
    requires forall h :: h in state.Held() ==> h < graph.slotCount
    modifies state`count, state.slots, state.refcounts, state.bits
    modifies graph`sites, graph`reports, graph.dependency, graph.predecessors, graph.edgeInfo
    ensures state.Valid() && graph.Valid()
    ensures state.Held() == if op.Acquire? then old(state.Held()) + [op.lock] else RemoveTop(old(state.Held()), op.lock)
    ensures graph.sites.Keys ==
            old(graph.sites).Keys + if op.Acquire? then PairsWith(old(state.Held()), op.lock) else {}
  {
    hide Words.Bit, LogsSeq, Cyclic, LearnAll, RemoveTop;
    match op
    case Acquire(lock) =>
      assert forall i :: 0 <= i < state.count ==> state.slots[i] in state.Held();
      if state.count > 0 {
        graph.OnAcquire(state.slots[..state.count], lock, threadSlot, acquirePc);
      } else {
        NothingHeldNothingObserved(lock);
      }
      state.Acquire(lock);
    case Release(lock) =>
      state.Release(lock);
  }

  lemma NothingHeldNothingObserved(lock: nat)
    ensures PairsWith([], lock) == {}
  {
  }

  /** Replaying a whole trace from the empty held state. */
  method Replay(log: seq<Op>, state: ThreadState, graph: GlobalGraph, threadSlot: int, acquirePc: nat)
    requires state.Valid() && state.Held() == [] && graph.Valid() && graph.slotCount <= state.maxSlots
    requires Fits(log, state.maxHeld) && forall op :: op in log ==> op.lock < graph.slotCount
    modifies state`count, state.slots, state.refcounts, state.bits
    modifies graph`sites, graph`reports, graph.dependency, graph.predecessors, graph.edgeInfo
    ensures state.Valid() && graph.Valid()
    ensures state.Held() == Held(log)
    ensures graph.sites.Keys == old(graph.sites).Keys + Observed(log)
  {
    hide Held, Observed, PairsWith, RemoveTop, ThreadState.Valid, GlobalGraph.Valid;
    EmptyTrace(log);
    ShapedByValid(state);
    HeldIsRegistered([], graph.slotCount);
    for i := 0 to |log|
      invariant state.Valid() && graph.Valid() && state.Shaped()
      invariant state.Held() == Held(log[..i])
      invariant graph.sites.Keys == old(graph.sites).Keys + Observed(log[..i])
    {
      NextOp(log, i, state.maxHeld);
      HeldIsRegistered(log[..i], graph.slotCount);
      ReplayOne(log[i], state, graph, threadSlot, acquirePc);
      ShapedByValid(state);
    }
    assert log[..|log|] == log;
  }

  lemma ShapedByValid(state: ThreadState)
    requires state.Valid()
    ensures state.Shaped()
  {
  }

  lemma EmptyTrace(log: seq<Op>)
    ensures Held(log[..0]) == [] && Observed(log[..0]) == {}
  {
  }

  lemma NextOp(log: seq<Op>, i: nat, maxHeld: nat)
    requires i < |log| && Fits(log, maxHeld)
    ensures Held(log[..i + 1]) ==
            if log[i].Acquire? then Held(log[..i]) + [log[i].lock] else RemoveTop(Held(log[..i]), log[i].lock)
    ensures Observed(log[..i + 1]) ==
            Observed(log[..i]) + if log[i].Acquire? then PairsWith(Held(log[..i]), log[i].lock) else {}
    ensures log[i].Acquire? ==> |Held(log[..i])| < maxHeld
  {
    assert log[..i + 1][..i] == log[..i];
    assert |Held(log[..i + 1])| <= maxHeld;
  }

  lemma {:induction false} HeldIsRegistered(log: seq<Op>, slots: nat)
    requires forall op :: op in log ==> op.lock < slots
    ensures forall h :: h in Held(log) ==> h < slots
  {
    if log != [] {
      var init, last := log[..|log| - 1], log[|log| - 1];
      assert forall op :: op in init ==> op in log;
      assert last in log;
      HeldIsRegistered(init, slots);
      if last.Release? {
        RemoveTopMultiset(Held(init), last.lock);
        forall h | h in Held(log)
          ensures h in Held(init)
        {
          assert h in multiset(RemoveTop(Held(init), last.lock));
          assert h in multiset(Held(init));
        }
      }
    }
  }
}
