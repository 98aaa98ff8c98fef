/** The asynchronous backend as a step machine: application threads that test a published snapshot
    and enqueue what it lacks, one worker that drains the rings and owns the graph, the pending flag
    and semaphore between them, the lazy start of the worker, and shutdown. Every atomic access of
    the source is one step; steps of all threads interleave freely. */
module Pipeline {
  import opened Digraph
  import opened Traces

  datatype Policy = Stall | Drop

  datatype Config = Config(threads: nat, capacity: nat, words: nat, policy: Policy)

  datatype Event = Event(to: nat, from: set<nat>)

  /** Where a producer stands inside one acquisition.
      `Collect(w)`: about to load snapshot word `w`. `EnsureLoad` to `AwaitReady`: starting the worker.
      `CheckFull`: about to load the ring's head. `Publish`: about to store the ring's tail.
      `Xchg`, `Post`: waking the worker; with `retry`, from the stall loop, else the last thing to do. */
  datatype ProducerPc =
    | Idle
    | Collect(word: nat)
    | EnsureLoad | EnsureCas | InitSem | StoreStop | StorePending | CreateWorker | StoreReady | AwaitReady
    | CheckFull
    | Publish
    | Xchg(retry: bool)
    | Post(retry: bool)

  /** `unknown` is the predecessor bitset the acquisition still has to hand over. */
  datatype Producer = Producer(pc: ProducerPc, log: seq<Op>, unknown: set<nat>)

  /** Where the worker stands. `final` marks the drain between clearing the pending flag and going to
      sleep. `Snapshot(e)`: about to publish the predecessor bit of `e`, already in the graph.
      `Sleep(sawStop)`: at `sem_wait`, after a stop test that answered `sawStop`. */
  datatype WorkerPc =
    | Unborn
    | Scan(ring: nat, final: bool, progress: bool)
    | InsertBatch(final: bool, progress: bool)
    | Snapshot(e: Edge, final: bool, progress: bool)
    | ClearPending
    | SetPending
    | CheckStop
    | CheckEmpty(ring: nat)
    | Sleep(sawStop: bool)
    | Exited

  datatype Shutdown = NotCalled | StopStored | StopPosted

  /** `starter`, `dropped` and `due` are history: who won the race to start the worker, the pairs given
      up under Drop, and the pairs of every event published before the stop flag was set. */
  datatype State = State(
    prods: seq<Producer>, rings: seq<seq<Event>>,
    graph: LockGraph, snapshot: set<Edge>, batch: set<Edge>, worker: WorkerPc,
    started: nat, stop: bool, pending: bool, sem: nat, shutdown: Shutdown,
    starter: nat, dropped: set<Edge>, due: set<Edge>)

  // ---------------------------------------------------------------- pairs in flight

  ghost function EdgesTo(from: set<nat>, to: nat): set<Edge> {
    set f | f in from && f != to :: (f, to)
  }

  ghost function EventEdges(ev: Event): set<Edge> {
    EdgesTo(ev.from, ev.to)
  }

  ghost function QueueEdges(q: seq<Event>): set<Edge> {
    if q == [] then {} else EventEdges(q[0]) + QueueEdges(q[1..])
  }

  /** The pairs of a queue: a source of one of its events with that event's target. */
  lemma {:induction false} InQueueEdges(q: seq<Event>, e: Edge)
    ensures e in QueueEdges(q) <==> exists i :: 0 <= i < |q| && e.1 == q[i].to && e.0 in q[i].from && e.0 != e.1
  {
    if q != [] {
      InQueueEdges(q[1..], e);
      assert e in EventEdges(q[0]) <==> e.1 == q[0].to && e.0 in q[0].from && e.0 != e.1;
      if i :| 0 <= i < |q[1..]| && e.1 == q[1..][i].to && e.0 in q[1..][i].from && e.0 != e.1 {
        assert q[i + 1] == q[1..][i];
      }
      if i :| 0 <= i < |q| && e.1 == q[i].to && e.0 in q[i].from && e.0 != e.1 {
        assert i > 0 ==> q[1..][i - 1] == q[i];
      }
    }
  }

  lemma {:induction false} QueueEdgesAppend(q: seq<Event>, ev: Event)
    ensures QueueEdges(q + [ev]) == QueueEdges(q) + EventEdges(ev)
  {
    if q == [] {
      assert (q + [ev])[1..] == [];
    } else {
      assert (q + [ev])[1..] == q[1..] + [ev];
      QueueEdgesAppend(q[1..], ev);
    }
  }

  ghost function InFlight(p: Producer): set<Edge> {
    EdgesTo(p.unknown, Target(p.log))
  }

  // ---------------------------------------------------------------- producer steps

  ghost predicate Init(c: Config, s: State) {
    && |s.prods| == |s.rings| == c.threads
    && (forall t :: 0 <= t < c.threads ==> s.prods[t] == Producer(Idle, [], {}) && s.rings[t] == [])
    && s.graph == EMPTY_GRAPH && s.snapshot == {} && s.batch == {} && s.worker == Unborn
    && s.started == 0 && !s.stop && !s.pending && s.sem == 0 && s.shutdown == NotCalled
    && s.dropped == {} && s.due == {}
  }

  ghost function At(s: State, t: nat, pc: ProducerPc): State
    requires t < |s.prods|
  {
    s.(prods := s.prods[t := s.prods[t].(pc := pc)])
  }

  /** The end of an acquisition: nothing is left to hand over. */
  ghost function Finish(s: State, t: nat, pc: ProducerPc): State
    requires t < |s.prods|
  {
    s.(prods := s.prods[t := Producer(pc, s.prods[t].log, {})])
  }

  /** An acquisition or release begins. Without a held lock there is nothing to report. */
  ghost function Begin(s: State, t: nat, op: Op): State
    requires t < |s.prods|
  {
    var p := s.prods[t];
    var held := Held(p.log);
    s.(prods := s.prods[t :=
        if op.Acquire? && held != [] then Producer(Collect(0), p.log + [op], (set h | h in held) - {op.lock})
        else Producer(Idle, p.log + [op], {})])
  }

  /** Loading one snapshot word removes the predecessors of that word which it already has. */
  ghost function LoadWord(s: State, t: nat, word: nat): State
    requires t < |s.prods|
  {
    var p := s.prods[t];
    var known := set h | h in p.unknown && h / 64 == word && (h, Target(p.log)) in s.snapshot;
    s.(prods := s.prods[t := Producer(Collect(word + 1), p.log, p.unknown - known)])
  }

  ghost function PublishEvent(s: State, t: nat): State
    requires t < |s.prods| && |s.rings| == |s.prods|
  {
    var p := s.prods[t];
    Finish(s.(rings := s.rings[t := s.rings[t] + [Event(Target(p.log), p.unknown)]]), t, Xchg(false))
  }

  /** lockdep_potential_on_acquire up to the skip decision. */
  ghost predicate CollectStep(c: Config, s: State, s': State, t: nat)
    requires t < |s.prods|
  {
    var p := s.prods[t];
    match p.pc
    case Idle => exists op :: s' == Begin(s, t, op)
    case Collect(word) =>
      s' == if word < c.words then LoadWord(s, t, word)
            else if p.unknown == {} then Finish(s, t, Idle)
            else At(s, t, EnsureLoad)
    case _ => false
  }

  /** lockdep_rb_enqueue_edge_batch: the ring test with its full-ring policy, and the publication. */
  ghost predicate OfferStep(c: Config, s: State, s': State, t: nat)
    requires t < |s.prods| == |s.rings|
  {
    var p := s.prods[t];
    match p.pc
    case CheckFull =>
      s' == if |s.rings[t]| < c.capacity then At(s, t, Publish)
            else if c.policy == Stall then At(s, t, Xchg(true))
            else Finish(s, t, Xchg(false)).(dropped := s.dropped + InFlight(p))
    case Publish => s' == PublishEvent(s, t)
    case _ => false
  }

  /** lockdep_rb_ensure_worker_started: the race. */
  ghost predicate RaceStep(s: State, s': State, t: nat)
    requires t < |s.prods|
  {
    match s.prods[t].pc
    case EnsureLoad => s' == At(s, t, if s.started == 2 then CheckFull else EnsureCas)
    case EnsureCas =>
      s' == if s.started == 0 then At(s, t, InitSem).(started := 1, starter := t) else At(s, t, AwaitReady)
    case StoreReady => s' == At(s, t, CheckFull).(started := 2)
    case AwaitReady => s' == At(s, t, if s.started == 2 then CheckFull else AwaitReady)
    case _ => false
  }

  /** lockdep_rb_ensure_worker_started: what the winner does. */
  ghost predicate CreateStep(s: State, s': State, t: nat)
    requires t < |s.prods|
  {
    match s.prods[t].pc
    case InitSem => s' == At(s, t, StoreStop).(sem := 0)
    case StoreStop => s' == At(s, t, StorePending).(stop := false)
    case StorePending => s' == At(s, t, CreateWorker).(pending := false)
    case CreateWorker => s' == At(s, t, StoreReady).(worker := Scan(0, false, false))
    case _ => false
  }

  /** lockdep_rb_signal_worker: the exchange of the pending flag, and the post it may call for. */
  ghost predicate SignalStep(s: State, s': State, t: nat)
    requires t < |s.prods|
  {
    match s.prods[t].pc
    case Xchg(retry) => s' == At(s, t, if s.pending then After(retry) else Post(retry)).(pending := true)
    case Post(retry) => s' == At(s, t, After(retry)).(sem := s.sem + 1)
    case _ => false
  }

  ghost predicate ProducerStep(c: Config, s: State, s': State, t: nat) {
    t < |s.prods| == |s.rings| &&
    (CollectStep(c, s, s', t) || OfferStep(c, s, s', t) || RaceStep(s, s', t) || CreateStep(s, s', t) ||
        SignalStep(s, s', t))
  }

  ghost function After(retry: bool): ProducerPc {
    if retry then CheckFull else Idle
  }

  // ---------------------------------------------------------------- worker steps

  ghost function WorkerAt(s: State, pc: WorkerPc): State {
    s.(worker := pc)
  }

  ghost function Dequeue(s: State, ring: nat, final: bool): State
    requires ring < |s.rings| && s.rings[ring] != []
  {
    s.(rings := s.rings[ring := s.rings[ring][1..]],
       batch := s.batch + EventEdges(s.rings[ring][0]),
       worker := Scan(ring, final, true))
  }

  ghost function DrainDone(final: bool, progress: bool): WorkerPc {
    if final then (if progress then SetPending else CheckStop)
    else (if progress then Scan(0, false, false) else ClearPending)
  }

  /** The dequeueing half of lockdep_rb_drain_once. */
  ghost predicate ScanStep(s: State, s': State) {
    match s.worker
    case Scan(ring, final, progress) =>
      s' == if ring >= |s.rings| then WorkerAt(s, InsertBatch(final, progress))
            else if s.rings[ring] != [] then Dequeue(s, ring, final)
            else WorkerAt(s, Scan(ring + 1, final, progress))
    case _ => false
  }

  /** The inserting half, and the decision of the worker loop on its result. */
  ghost predicate InsertStep(s: State, s': State) {
    match s.worker
    case InsertBatch(final, progress) =>
      if s.batch == {} then s' == WorkerAt(s, DrainDone(final, progress))
      else exists e :: e in s.batch && s' == InsertOne(s, e, final, progress)
    case Snapshot(e, final, progress) =>
      s' == s.(snapshot := s.snapshot + {e}, worker := InsertBatch(final, progress))
    case _ => false
  }

  /** The pending flag, and waking up. */
  ghost predicate FlagStep(s: State, s': State) {
    match s.worker
    case ClearPending => s' == WorkerAt(s.(pending := false), Scan(0, true, false))
    case SetPending => s' == WorkerAt(s.(pending := true), Scan(0, false, false))
    case Sleep(_) => s.sem > 0 && s' == WorkerAt(s.(sem := s.sem - 1), Scan(0, false, false))
    case _ => false
  }

  /** The stop test and lockdep_rb_all_queues_empty. */
  ghost predicate StopStep(s: State, s': State) {
    match s.worker
    case CheckStop => s' == WorkerAt(s, if s.stop then CheckEmpty(0) else Sleep(false))
    case CheckEmpty(ring) =>
      s' == WorkerAt(s, if ring >= |s.rings| then Exited
                        else if s.rings[ring] != [] then Sleep(true)
                        else CheckEmpty(ring + 1))
    case _ => false
  }

  ghost predicate WorkerStep(s: State, s': State) {
    ScanStep(s, s') || InsertStep(s, s') || FlagStep(s, s') || StopStep(s, s')
  }

  /** One pair of the batch, in any order: skipped when known, else inserted, reported if it closes a
      cycle, and then published. */
  ghost function InsertOne(s: State, e: Edge, final: bool, progress: bool): State {
    if e in s.graph.edges then s.(batch := s.batch - {e})
    else s.(batch := s.batch - {e}, graph := Insert(s.graph, e), worker := Snapshot(e, final, progress))
  }

  // ---------------------------------------------------------------- shutdown steps

  ghost function Published(s: State): set<Edge> {
    s.graph.edges + s.batch + AllQueueEdges(s.rings)
  }

  ghost function AllQueueEdges(rings: seq<seq<Event>>): set<Edge> {
    if rings == [] then {} else QueueEdges(rings[0]) + AllQueueEdges(rings[1..])
  }

  ghost predicate ShutdownStep(s: State, s': State) {
    match s.shutdown
    case NotCalled => s.started == 2 && s' == s.(stop := true, shutdown := StopStored, due := Published(s))
    case StopStored => s' == s.(sem := s.sem + 1, shutdown := StopPosted)
    case StopPosted => false
  }

  ghost predicate Next(c: Config, s: State, s': State) {
    (exists t :: ProducerStep(c, s, s', t)) || WorkerStep(s, s') || ShutdownStep(s, s')
  }

  ghost predicate Run(c: Config, run: seq<State>) {
    |run| > 0 && Init(c, run[0]) && forall i :: 0 <= i < |run| - 1 ==> Next(c, run[i], run[i + 1])
  }
}
