/** What one drain and one acquisition do when nobody else moves: the steps of the machine, taken one after
    the other by one thread, are lockdep_rb_drain_once with the decision the worker loop takes on it, and
    lockdep_potential_on_acquire. */
module PipelineAlone {
  import opened Digraph
  import opened Reports
  import opened Traces
  import opened Pipeline
  import opened PipelineStop
  import opened PipelineRest

  // ---------------------------------------------------------------- one drain

  lemma WorkerThen(states: seq<State>, more: seq<State>)
    requires WorkerOnly(states) && WorkerOnly(more) && states[|states| - 1] == more[0]
    ensures WorkerOnly(states + more[1..])
    ensures (states + more[1..])[0] == states[0]
    ensures (states + more[1..])[|states + more[1..]| - 1] == more[|more| - 1]
  {
    hide WorkerStep;
    var all := states + more[1..];
    forall i | 0 <= i < |all| - 1
      ensures WorkerStep(all[i], all[i + 1])
    {
      if i < |states| - 1 {
        assert WorkerStep(states[i], states[i + 1]);
      } else {
        var k := i - |states| + 1;
        assert all[i] == more[k] && all[i + 1] == more[k + 1];
        assert WorkerStep(more[k], more[k + 1]);
      }
    }
  }

  lemma OneWorkerStep(s: State, s': State)
    requires WorkerStep(s, s')
    ensures WorkerOnly([s, s'])
  {
  }

  /** Taking the front event of a ring takes its pairs out of what is queued, and only them. */
  lemma DequeuedPairs(rings: seq<seq<Event>>, ring: nat)
    requires ring < |rings| && rings[ring] != []
    ensures AllQueueEdges(rings) == EventEdges(rings[ring][0]) + AllQueueEdges(rings[ring := rings[ring][1..]])
  {
    hide EventEdges;
    var rings' := rings[ring := rings[ring][1..]];
    forall e: Edge
      ensures e in AllQueueEdges(rings) <==> e in EventEdges(rings[ring][0]) || e in AllQueueEdges(rings')
    {
      InAllQueueEdges(rings, e);
      InAllQueueEdges(rings', e);
      if t :| 0 <= t < |rings| && e in QueueEdges(rings[t]) {
        assert t != ring ==> e in QueueEdges(rings'[t]);
        assert t == ring ==> e in EventEdges(rings[ring][0]) || e in QueueEdges(rings'[ring]);
      }
      if t :| 0 <= t < |rings'| && e in QueueEdges(rings'[t]) {
        assert e in QueueEdges(rings[t]);
      }
      assert e in EventEdges(rings[ring][0]) ==> e in QueueEdges(rings[ring]);
    }
  }

  lemma NothingQueued(rings: seq<seq<Event>>)
    requires forall t :: 0 <= t < |rings| ==> rings[t] == []
    ensures AllQueueEdges(rings) == {}
  {
    forall e: Edge
      ensures e !in AllQueueEdges(rings)
    {
      InAllQueueEdges(rings, e);
    }
  }

  ghost predicate AllEmpty(rings: seq<seq<Event>>) {
    forall t :: 0 <= t < |rings| ==> rings[t] == []
  }

  /** The worker has gone over the rings before `ring` in this drain. */
  ghost predicate ScannedTo(s: State, ring: nat, final: bool, progress: bool) {
    && s.worker == Scan(ring, final, progress) && ring <= |s.rings|
    && forall t :: 0 <= t < ring ==> s.rings[t] == []
  }

  ghost predicate ScanEnds(s: State, end: State, final: bool, progress: bool) {
    && |end.rings| == |s.rings| && AllEmpty(end.rings)
    && end == s.(rings := end.rings, batch := s.batch + AllQueueEdges(s.rings),
                 worker := InsertBatch(final, progress || !AllEmpty(s.rings)))
  }

  lemma ScanEndsAfterDequeue(s: State, ring: nat, end: State, final: bool, progress: bool)
    requires ring < |s.rings| && s.rings[ring] != [] && ScanEnds(Dequeue(s, ring, final), end, final, true)
    ensures ScanEnds(s, end, final, progress)
  {
    hide EventEdges, AllQueueEdges;
    DequeuedPairs(s.rings, ring);
    assert !AllEmpty(s.rings);
  }

  lemma ScanEndsAtOnce(s: State, final: bool, progress: bool)
    requires AllEmpty(s.rings)
    ensures ScanEnds(s, WorkerAt(s, InsertBatch(final, progress)), final, progress)
  {
    NothingQueued(s.rings);
  }

  /** The dequeueing half empties every ring into the batch and remembers whether there was anything. */
  lemma {:induction false} ScanAlone(s: State, ring: nat, final: bool, progress: bool) returns (states: seq<State>)
    requires ScannedTo(s, ring, final, progress)
    ensures |states| > 0 && WorkerOnly(states) && states[0] == s
    ensures ScanEnds(s, states[|states| - 1], final, progress)
    decreases WorkLeft(s)
  {
    hide WorkerStep, WorkerOnly, WorkLeft, EventEdges, AllQueueEdges, ScanEnds;
    var s' := if ring >= |s.rings| then WorkerAt(s, InsertBatch(final, progress))
              else if s.rings[ring] != [] then Dequeue(s, ring, final)
              else WorkerAt(s, Scan(ring + 1, final, progress));
    ScanIsStep(s, s');
    OneWorkerStep(s, s');
    WorkerWorks(s, s');
    states := [s, s'];
    if ring >= |s.rings| {
      ScanEndsAtOnce(s, final, progress);
    } else if s.rings[ring] != [] {
      var rest := ScanAlone(s', ring, final, true);
      ScanEndsAfterDequeue(s, ring, rest[|rest| - 1], final, progress);
      WorkerThen([s, s'], rest);
      states := [s, s'] + rest[1..];
    } else {
      var rest := ScanAlone(s', ring + 1, final, progress);
      ScanEndsAfterSkip(s, s', rest[|rest| - 1], final, progress);
      WorkerThen([s, s'], rest);
      states := [s, s'] + rest[1..];
    }
  }

  lemma ScanEndsAfterSkip(s: State, s': State, end: State, final: bool, progress: bool)
    requires s' == WorkerAt(s, s'.worker) && ScanEnds(s', end, final, progress)
    ensures ScanEnds(s, end, final, progress)
  {
  }

  lemma ScanIsStep(s: State, s': State)
    requires ScanStep(s, s')
    ensures WorkerStep(s, s')
  {
  }

  /** One pair of the batch: nothing if it is known, else insertion and then publication. */
  lemma InsertPairAlone(s: State, e: Edge) returns (states: seq<State>)
    requires s.worker.InsertBatch? && e in s.batch && e.0 != e.1
    ensures |states| > 0 && WorkerOnly(states) && states[0] == s
    ensures states[|states| - 1] ==
            s.(batch := s.batch - {e}, graph := Insert(s.graph, e),
               snapshot := if e in s.graph.edges then s.snapshot else s.snapshot + {e})
  {
    hide WorkerStep, Reaches;
    var final, progress := s.worker.final, s.worker.progress;
    var s' := InsertOne(s, e, final, progress);
    InsertIsStep(s, s');
    OneWorkerStep(s, s');
    states := [s, s'];
    if e !in s.graph.edges {
      var s'' := s'.(snapshot := s'.snapshot + {e}, worker := InsertBatch(final, progress));
      InsertIsStep(s', s'');
      OneWorkerStep(s', s'');
      WorkerThen([s, s'], [s', s'']);
      states := [s, s'] + [s', s''][1..];
    }
  }

  ghost predicate InsertEnds(s: State, end: State, final: bool, progress: bool) {
    && end.graph.edges == s.graph.edges + s.batch
    && (s.snapshot == s.graph.edges ==> end.snapshot == end.graph.edges)
    && end == s.(graph := end.graph, snapshot := end.snapshot, batch := {}, worker := DrainDone(final, progress))
  }

  lemma InsertEndsAfter(s: State, e: Edge, next: State, end: State, final: bool, progress: bool)
    requires e in s.batch && e.0 != e.1 && InsertEnds(next, end, final, progress)
    requires next == s.(batch := s.batch - {e}, graph := Insert(s.graph, e),
                        snapshot := if e in s.graph.edges then s.snapshot else s.snapshot + {e})
    ensures InsertEnds(s, end, final, progress)
  {
    hide Reaches, DrainDone;
    assert s.batch == next.batch + {e};
  }

  /** The inserting half empties the batch into graph and snapshot. */
  lemma {:induction false} InsertAlone(s: State, final: bool, progress: bool) returns (states: seq<State>)
    requires s.worker == InsertBatch(final, progress) && forall e :: e in s.batch ==> e.0 != e.1
    ensures |states| > 0 && WorkerOnly(states) && states[0] == s
    ensures InsertEnds(s, states[|states| - 1], final, progress)
    decreases |s.batch|
  {
    hide WorkerStep, WorkerOnly, Reaches, Insert;
    if s.batch == {} {
      var s' := WorkerAt(s, DrainDone(final, progress));
      InsertIsStep(s, s');
      OneWorkerStep(s, s');
      states := [s, s'];
    } else {
      var e :| e in s.batch;
      var first := InsertPairAlone(s, e);
      var next := first[|first| - 1];
      hide InsertEnds, DrainDone;
      var rest := InsertAlone(next, final, progress);
      var end := rest[|rest| - 1];
      InsertEndsAfter(s, e, next, end, final, progress);
      WorkerThen(first, rest);
      states := first + rest[1..];
      assert states[|states| - 1] == end;
    }
  }

  lemma InsertIsStep(s: State, s': State)
    requires InsertStep(s, s')
    ensures WorkerStep(s, s')
  {
  }

  lemma QueuedPairsHaveNoLoops(rings: seq<seq<Event>>)
    ensures forall e :: e in AllQueueEdges(rings) ==> e.0 != e.1
  {
    forall e | e in AllQueueEdges(rings)
      ensures e.0 != e.1
    {
      InAllQueueEdges(rings, e);
      var t :| 0 <= t < |rings| && e in QueueEdges(rings[t]);
      QueueHasNoLoops(rings[t], e);
    }
  }

  lemma {:induction false} QueueHasNoLoops(q: seq<Event>, e: Edge)
    requires e in QueueEdges(q)
    ensures e.0 != e.1
  {
    if e !in EventEdges(q[0]) {
      QueueHasNoLoops(q[1..], e);
    }
  }

  /** One drain: afterwards all that was queued is in graph and snapshot. A drain that found something is
      followed by another one, after raising the pending flag if it was the last before going to sleep;
      one that found nothing leads to clearing the flag, and, the flag being cleared, to the stop test. */
  lemma DrainAlone(s: State, final: bool) returns (states: seq<State>)
    requires s.worker == Scan(0, final, false) && s.batch == {} && s.snapshot == s.graph.edges
    ensures |states| > 0 && WorkerOnly(states) && states[0] == s
    ensures var end := states[|states| - 1];
            && |end.rings| == |s.rings| && AllEmpty(end.rings)
            && end.graph.edges == s.graph.edges + AllQueueEdges(s.rings)
            && end == s.(rings := end.rings, graph := end.graph, snapshot := end.graph.edges,
                         worker := if final then (if AllEmpty(s.rings) then CheckStop else SetPending)
                                   else (if AllEmpty(s.rings) then ClearPending else Scan(0, false, false)))
  {
    hide WorkerStep, WorkerOnly, AllQueueEdges;
    var scan := ScanAlone(s, 0, final, false);
    var middle := scan[|scan| - 1];
    QueuedPairsHaveNoLoops(s.rings);
    var rest := InsertAlone(middle, final, !AllEmpty(s.rings));
    WorkerThen(scan, rest);
    states := scan + rest[1..];
  }

  /** The loop around the drains, from the start of a round: everything queued is inserted, the pending flag
      is cleared once, and the worker goes to sleep, or exits if the stop flag is set. */
  lemma RoundAlone(s: State) returns (states: seq<State>)
    requires s.worker == Scan(0, false, false) && s.batch == {} && s.snapshot == s.graph.edges
    ensures |states| > 0 && WorkerOnly(states) && states[0] == s
    ensures var end := states[|states| - 1];
            && |end.rings| == |s.rings| && AllEmpty(end.rings)
            && end.graph.edges == s.graph.edges + AllQueueEdges(s.rings)
            && end == s.(rings := end.rings, graph := end.graph, snapshot := end.graph.edges, pending := false,
                         worker := if s.stop then Exited else Sleep(false))
    decreases !AllEmpty(s.rings)
  {
    hide WorkerStep, WorkerOnly, AllQueueEdges;
    var drain := DrainAlone(s, false);
    var s1 := drain[|drain| - 1];
    var rest;
    if AllEmpty(s.rings) {
      rest := GoToSleepAlone(s1);
    } else {
      rest := RoundAlone(s1);
    }
    NothingQueued(s1.rings);
    WorkerThen(drain, rest);
    states := drain + rest[1..];
  }

  /** Clearing the flag, the last drain, the stop test. */
  lemma GoToSleepAlone(s: State) returns (states: seq<State>)
    requires s.worker == ClearPending && s.batch == {} && s.snapshot == s.graph.edges && AllEmpty(s.rings)
    ensures |states| > 0 && WorkerOnly(states) && states[0] == s
    ensures var end := states[|states| - 1];
            && |end.rings| == |s.rings| && AllEmpty(end.rings) && end.graph.edges == s.graph.edges
            && end == s.(rings := end.rings, graph := end.graph, snapshot := end.graph.edges, pending := false,
                         worker := if s.stop then Exited else Sleep(false))
  {
    hide WorkerStep, WorkerOnly, AllQueueEdges;
    var s1 := WorkerAt(s.(pending := false), Scan(0, true, false));
    FlagIsStep(s, s1);
    OneWorkerStep(s, s1);
    var drain := DrainAlone(s1, true);
    WorkerThen([s, s1], drain);
    states := [s, s1] + drain[1..];
    NothingQueued(s1.rings);
    var s2 := drain[|drain| - 1];
    var s3 := WorkerAt(s2, if s2.stop then CheckEmpty(0) else Sleep(false));
    StopIsStep(s2, s3);
    OneWorkerStep(s2, s3);
    WorkerThen(states, [s2, s3]);
    states := states + [s2, s3][1..];
    if s.stop {
      var rest := CheckEmptyAlone(s3, 0);
      WorkerThen(states, rest);
      states := states + rest[1..];
    }
  }

  lemma {:induction false} CheckEmptyAlone(s: State, ring: nat) returns (states: seq<State>)
    requires s.worker == CheckEmpty(ring) && AllEmpty(s.rings) && ring <= |s.rings|
    ensures |states| > 0 && WorkerOnly(states) && states[0] == s && states[|states| - 1] == WorkerAt(s, Exited)
    decreases |s.rings| - ring
  {
    hide WorkerStep, WorkerOnly;
    var s' := WorkerAt(s, if ring >= |s.rings| then Exited else CheckEmpty(ring + 1));
    StopIsStep(s, s');
    OneWorkerStep(s, s');
    states := [s, s'];
    if ring < |s.rings| {
      var rest := CheckEmptyAlone(s', ring + 1);
      WorkerThen(states, rest);
      states := states + rest[1..];
    }
  }

  lemma FlagIsStep(s: State, s': State)
    requires FlagStep(s, s')
    ensures WorkerStep(s, s')
  {
  }

  lemma StopIsStep(s: State, s': State)
    requires StopStep(s, s')
    ensures WorkerStep(s, s')
  {
  }

  /** The last drain before sleeping that finds something raises the flag again and starts over. */
  lemma LateDrainAlone(s: State) returns (states: seq<State>)
    requires s.worker == Scan(0, true, false) && s.batch == {} && s.snapshot == s.graph.edges && !AllEmpty(s.rings)
    ensures |states| > 0 && WorkerOnly(states) && states[0] == s
    ensures var end := states[|states| - 1];
            && |end.rings| == |s.rings| && AllEmpty(end.rings)
            && end.graph.edges == s.graph.edges + AllQueueEdges(s.rings)
            && end == s.(rings := end.rings, graph := end.graph, snapshot := end.graph.edges, pending := true,
                         worker := Scan(0, false, false))
  {
    hide WorkerStep, WorkerOnly, AllQueueEdges;
    var drain := DrainAlone(s, true);
    var s1 := drain[|drain| - 1];
    var s2 := WorkerAt(s1.(pending := true), Scan(0, false, false));
    FlagIsStep(s1, s2);
    OneWorkerStep(s1, s2);
    WorkerThen(drain, [s1, s2]);
    states := drain + [s1, s2][1..];
  }
}
