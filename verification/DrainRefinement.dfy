/** The verified drain is the drain of the step machine. An event with its words of source bits stands for
    the machine's event with a set of sources; what a drain does to arrays and log is, seen abstractly, the
    machine inserting the pairs of its batch one after the other. */
module DrainRefinement {
  import opened Words
  import opened Digraph
  import opened Reports
  import opened RbGraph
  import opened Traces
  import Pipeline
  import RbDrain

  /** The machine's view of an event. */
  ghost function Abstract(ev: RbDrain.Event): Pipeline.Event
    requires ev.to >= 0
  {
    Pipeline.Event(ev.to, SlotsOf(ev.fromBits))
  }

  ghost function AbstractAll(evs: seq<RbDrain.Event>): seq<Pipeline.Event>
    requires forall ev :: ev in evs ==> ev.to >= 0
  {
    seq(|evs|, i requires 0 <= i < |evs| => Abstract(evs[i]))
  }

  /** What every producer publishes: a target and sources that are registered locks. */
  ghost predicate Registered(evs: seq<RbDrain.Event>, slots: nat) {
    forall ev :: ev in evs ==> 0 <= ev.to < slots && forall f :: f in SlotsOf(ev.fromBits) ==> f < slots
  }

  lemma OneEventPairs(sites: Sites, ev: RbDrain.Event, slots: nat, maxSlots: nat, withSites: bool)
    requires slots <= maxSlots && Registered([ev], slots)
    ensures ev.to >= 0
    ensures RbDrain.ApplyEvent(sites, ev, slots, maxSlots, withSites).Keys ==
            sites.Keys + Pipeline.EventEdges(Abstract(ev))
  {
    assert ev in [ev];
    var sources := SlotsOf(ev.fromBits);
    assert EdgesInto(sources, ev.to, slots) == Pipeline.EdgesTo(sources, ev.to) by {
      forall e: Edge
        ensures e in EdgesInto(sources, ev.to, slots) <==> e in Pipeline.EdgesTo(sources, ev.to)
      {
        assert e in EdgesInto(sources, ev.to, slots) <==>
               e.0 in sources && e.0 != ev.to && e.0 < slots && e.1 == ev.to;
        assert e in Pipeline.EdgesTo(sources, ev.to) <==> e.0 in sources && e.0 != ev.to && e.1 == ev.to;
      }
    }
  }

  /** Inserting a queue of events adds exactly the pairs the machine sees in that queue. */
  lemma {:induction false} DrainedPairsAreQueued(sites: Sites, evs: seq<RbDrain.Event>, slots: nat, maxSlots: nat,
                                                 withSites: bool)
    requires slots <= maxSlots && Registered(evs, slots)
    ensures RbDrain.ApplyAll(sites, evs, slots, maxSlots, withSites).Keys ==
            sites.Keys + Pipeline.QueueEdges(AbstractAll(evs))
  {
    hide RbDrain.ApplyEvent, Pipeline.EventEdges, SlotsOf;
    if evs == [] {
      assert AbstractAll(evs) == [];
    } else {
      var init, last := evs[..|evs| - 1], evs[|evs| - 1];
      assert forall ev :: ev in init ==> ev in evs;
      assert last in evs;
      DrainedPairsAreQueued(sites, init, slots, maxSlots, withSites);
      OneEventPairs(RbDrain.ApplyAll(sites, init, slots, maxSlots, withSites), last, slots, maxSlots, withSites);
      Pipeline.QueueEdgesAppend(AbstractAll(init), Abstract(last));
      assert AbstractAll(evs) == AbstractAll(init) + [Abstract(last)];
    }
  }

  /** A sequence of concrete insertions is the same sequence of the machine's. */
  lemma {:induction false} PerformsIsInsertSeq(g: LockGraph, before: seq<Report>, after: seq<Report>, sites: Sites,
                                               sites': Sites, steps: seq<Insertion>)
    requires Abstracts(g, sites, before) && Performs(before, after, sites, sites', steps)
    ensures Abstracts(InsertSeq(g, EdgesOf(steps)), sites', after)
    decreases |steps|
  {
    hide Abstracts, LogsCycle, Learn, Insert;
    if steps == [] {
      assert EdgesOf(steps) == [];
    } else {
      var init, last := steps[..|steps| - 1], steps[|steps| - 1];
      var middle :| LogsSeq(before, middle, sites, init) &&
                    LogsCycle(middle, after, LearnSeq(sites, init), last.edge, last.info);
      PerformsIsInsertSeq(g, before, middle, sites, LearnSeq(sites, init), init);
      assert EdgesOf(steps)[..|steps| - 1] == EdgesOf(init);
      AddEdgeIsInsert(InsertSeq(g, EdgesOf(init)), LearnSeq(sites, init), middle, last.edge, last.info, sites', after);
    }
  }

  /** What `RbDrain.Worker.DrainOnce` promises is, for the machine: from a graph `g`, the pairs of the queued
      events are inserted one after the other with the reports that calls for, and nothing else; the graph
      gains exactly the pairs of the queue, and the verdict stays exact. */
  lemma DrainIsMachineDrain(g: LockGraph, before: seq<Report>, after: seq<Report>, sites: Sites, sites': Sites,
                            steps: seq<Insertion>, evs: seq<RbDrain.Event>, slots: nat, maxSlots: nat, withSites: bool)
    requires Abstracts(g, sites, before) && Performs(before, after, sites, sites', steps)
    requires slots <= maxSlots && Registered(evs, slots)
    requires sites'.Keys == RbDrain.ApplyAll(sites, evs, slots, maxSlots, withSites).Keys
    ensures var g' := InsertSeq(g, EdgesOf(steps));
            && Abstracts(g', sites', after)
            && g'.edges == g.edges + Pipeline.QueueEdges(AbstractAll(evs))
            && (Exact(g) ==> Exact(g'))
  {
    PerformsIsInsertSeq(g, before, after, sites, sites', steps);
    DrainedPairsAreQueued(sites, evs, slots, maxSlots, withSites);
    hide Performs, Registered, InsertSeq;
    if Exact(g) {
      InsertSeqKeepsExact(g, EdgesOf(steps));
    }
  }
}
