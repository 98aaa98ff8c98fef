/** The synchronous potential-deadlock backend: a byte adjacency matrix, predecessor bits that let
    a repeated acquire skip the graph, and a search for every new edge. */
module GlobalBackend {
  import opened Words
  import opened Digraph
  import opened Matrices
  import opened PathSearch
  import opened Reports

  class GlobalGraph {
    const maxSlots: nat
    const dependency: array2<bool>
    const predecessors: array2<Word>
    const edgeInfo: array2<EdgeInfo>
    var slotCount: nat
    var reports: seq<Report>

    /** The pairs observed so far, with their sites. */
    ghost var sites: Sites

    ghost predicate Shaped()
      reads this
    {
      && dependency.Length0 == dependency.Length1 == maxSlots
      && predecessors.Length0 == maxSlots && predecessors.Length1 == WordCount(maxSlots)
      && edgeInfo.Length0 == edgeInfo.Length1 == maxSlots
      && slotCount <= maxSlots
    }

    /** Matrix, predecessor bits and sites all describe the recorded pairs. */
    ghost predicate Agrees()
      reads this, dependency, predecessors, edgeInfo
    {
      && Shaped()
      && Within(sites.Keys, slotCount)
      && Bytes(dependency).Stores(sites.Keys, maxSlots)
      && Mirrors(predecessors, Transpose(sites.Keys))
      && Records(edgeInfo, sites)
    }

    ghost predicate Valid()
      reads this, dependency, predecessors, edgeInfo
    {
      && Agrees()
      && (reports != [] <==> Cyclic(sites.Keys))
    }

    constructor (maxSlots: nat)
      ensures Valid() && fresh(dependency) && fresh(predecessors) && fresh(edgeInfo)
      ensures this.maxSlots == maxSlots && sites == map[] && reports == [] && slotCount == 0
    {
      this.maxSlots := maxSlots;
      dependency := new bool[maxSlots, maxSlots]((_, _) => false);
      predecessors := new Word[maxSlots, WordCount(maxSlots)]((_, _) => 0);
      edgeInfo := new EdgeInfo[maxSlots, maxSlots]((_, _) => UNKNOWN_EDGE_INFO);
      slotCount, reports, sites := 0, [], map[];
      new;
      EmptyMirrors(predecessors);
      assert sites.Keys == {} && Transpose({}) == {};
      NoEdgesNoCycle();
    }

    /** A newly registered lock brings no edge with it. */
    method RegisterSlot()
      requires Valid() && slotCount < maxSlots
      modifies `slotCount
      ensures Valid() && slotCount == old(slotCount) + 1
    {
      slotCount := slotCount + 1;
    }

    /** lockdep_global_has_unknown_predecessor */
    method HasUnknownPredecessor(held: seq<nat>, newSlot: nat) returns (unknown: bool)
      requires Valid() && newSlot < slotCount && forall i :: 0 <= i < |held| ==> held[i] < slotCount
      ensures unknown <==> !(PairsWith(held, newSlot) <= sites.Keys)
    {
      hide Words.Bit;
      for i := 0 to |held|
        invariant forall j :: 0 <= j < i ==> held[j] == newSlot || (held[j], newSlot) in sites
      {
        if held[i] == newSlot {
          continue;
        }
        if !TestBit(predecessors, newSlot, held[i]) {
          assert (held[i], newSlot) in PairsWith(held, newSlot);
          return true;
        }
      }
      return false;
    }

    /** lockdep_add_edge_and_check_cycle, the whole of which runs under the metadata lock. */
    method AddEdgeAndCheckCycle(from: nat, to: nat, threadSlot: int, acquirePc: nat)
      requires Valid() && from < slotCount && to < slotCount
      modifies this`sites, this`reports, dependency, predecessors, edgeInfo
      ensures Valid()
      ensures sites == Learn(old(sites), (from, to), EdgeInfo(threadSlot, acquirePc))
      ensures LogsCycle(old(reports), reports, old(sites), (from, to), EdgeInfo(threadSlot, acquirePc))
      ensures from == to || (from, to) in old(sites) ==>
                unchanged(dependency) && unchanged(predecessors) && unchanged(edgeInfo)
    {
      hide Words.Bit, Matrices.Mirrors, Matrices.Transpose, Reports.Records, Reports.IsWitness, Digraph.Reaches,
          Digraph.Cyclic;
      if from == to {
        return;
      }
      var newInfo := EdgeInfo(threadSlot, acquirePc);
      if !dependency[from, to] {
        var found, report := CheckCycle(from, to, newInfo);
        if found {
          reports := reports + [report];
        }
        AddEdgeCyclic(sites.Keys, from, to);
        RecordEdge(from, to, newInfo);
      }
    }

    /** The search for an existing chain from `to` back to `from`, and the record built from it. */
    method CheckCycle(from: nat, to: nat, newInfo: EdgeInfo) returns (found: bool, report: Report)
      requires Agrees() && from < slotCount && to < slotCount && from != to
      ensures found <==> Reaches(sites.Keys, to, from)
      ensures found ==> report.from == from && report.to == to && report.newInfo == newInfo && IsWitness(report, sites)
    {
      hide Words.Bit;
      var chain;
      found, chain := FindExistingChain(Bytes(dependency), sites.Keys, slotCount, maxSlots, from, to);
      report := Report(from, to, [], newInfo, []);
      if found {
        var infos := ChainInfos(edgeInfo, chain, sites);
        report := Report(from, to, chain, newInfo, infos);
      }
    }

    /** The stores that make a new edge visible: matrix, site and predecessor bit. */
    method RecordEdge(from: nat, to: nat, info: EdgeInfo)
      requires Agrees() && (from, to) !in sites
      requires from < slotCount && to < slotCount && from != to
      modifies this`sites, dependency, predecessors, edgeInfo
      ensures Agrees() && sites == old(sites)[(from, to) := info]
      ensures sites.Keys == old(sites).Keys + {(from, to)}
    {
      hide Words.Bit, Matrices.Mirrors, Matrices.Transpose, Reports.Records;
      StoreByte(dependency, from, to, sites.Keys);
      RecordSite(edgeInfo, from, to, info, sites);
      SetBit(predecessors, to, from, Transpose(sites.Keys));
      TransposeAdd(sites.Keys, from, to);
      sites := sites[(from, to) := info];
      assert sites.Keys == old(sites).Keys + {(from, to)};
    }

    /** lockdep_global_on_acquire: one insertion per held lock, oldest first, each with its report if it
        closes a cycle. */
    method AddHeldEdges(held: seq<nat>, newSlot: nat, threadSlot: int, acquirePc: nat)
      requires Valid() && newSlot < slotCount && forall i :: 0 <= i < |held| ==> held[i] < slotCount
      modifies this`sites, this`reports, dependency, predecessors, edgeInfo
      ensures Valid()
      ensures sites == LearnAll(old(sites), held, newSlot, EdgeInfo(threadSlot, acquirePc))
      ensures LogsSeq(old(reports), reports, old(sites), HeldSteps(held, newSlot, EdgeInfo(threadSlot, acquirePc)))
    {
      hide Words.Bit, LogsSeq, LearnSeq, LogsCycle;
      ghost var info := EdgeInfo(threadSlot, acquirePc);
      assert held[..0] == [] && HeldSteps([], newSlot, info) == [];
      NothingLogged(reports, sites);
      for i := 0 to |held|
        invariant Valid()
        invariant sites == LearnAll(old(sites), held[..i], newSlot, info)
        invariant LogsSeq(old(reports), reports, old(sites), HeldSteps(held[..i], newSlot, info))
      {
        ghost var before := reports;
        AddEdgeAndCheckCycle(held[i], newSlot, threadSlot, acquirePc);
        assert held[..i + 1][..i] == held[..i];
        OneMoreHeld(old(reports), before, reports, old(sites), held, i, newSlot, info);
      }
      assert held[..|held|] == held;
    }

    /** lockdep_potential_on_acquire in global mode: the skip test, then every held lock in turn. The
        skip test loses nothing: graph, sites and reports are those of inserting every pair. */
    method OnAcquire(held: seq<nat>, newSlot: nat, threadSlot: int, acquirePc: nat)
      requires Valid() && newSlot < slotCount && forall i :: 0 <= i < |held| ==> held[i] < slotCount
      modifies this`sites, this`reports, dependency, predecessors, edgeInfo
      ensures Valid()
      ensures sites == LearnAll(old(sites), held, newSlot, EdgeInfo(threadSlot, acquirePc))
      ensures sites.Keys == old(sites).Keys + PairsWith(held, newSlot)
      ensures LogsSeq(old(reports), reports, old(sites), HeldSteps(held, newSlot, EdgeInfo(threadSlot, acquirePc)))
      ensures PairsWith(held, newSlot) <= old(sites).Keys ==>
                && sites == old(sites) && reports == old(reports)
                && unchanged(dependency) && unchanged(predecessors) && unchanged(edgeInfo)
    {
      hide Words.Bit, LogsSeq, LearnSeq;
      ghost var info := EdgeInfo(threadSlot, acquirePc);
      LearnAllPairs(sites, held, newSlot, info);
      var unknown := false;
      if |held| > 0 {
        unknown := HasUnknownPredecessor(held, newSlot);
      }
      if unknown {
        AddHeldEdges(held, newSlot, threadSlot, acquirePc);
      } else {
        KnownPairsLogNothing(reports, sites, held, newSlot, info);
      }
    }
  }

  /** The insertions of one acquisition. */
  ghost function HeldSteps(held: seq<nat>, newSlot: nat, info: EdgeInfo): seq<Insertion> {
    seq(|held|, i requires 0 <= i < |held| => Insertion((held[i], newSlot), info))
  }

  lemma OneMoreHeld(before: seq<Report>, middle: seq<Report>, after: seq<Report>, sites: Sites, held: seq<nat>, i: nat,
                    newSlot: nat, info: EdgeInfo)
    requires i < |held| && LogsSeq(before, middle, sites, HeldSteps(held[..i], newSlot, info))
    requires LogsCycle(middle, after, LearnAll(sites, held[..i], newSlot, info), (held[i], newSlot), info)
    ensures LogsSeq(before, after, sites, HeldSteps(held[..i + 1], newSlot, info))
  {
    hide LogsSeq, LogsCycle, LearnAll;
    var step := Insertion((held[i], newSlot), info);
    LearnAllIsSeq(sites, held[..i], newSlot, info);
    LogsSeqStep(before, middle, after, sites, HeldSteps(held[..i], newSlot, info), step);
    assert HeldSteps(held[..i + 1], newSlot, info) == HeldSteps(held[..i], newSlot, info) + [step];
  }

  lemma {:induction false} LearnAllIsSeq(sites: Sites, held: seq<nat>, newSlot: nat, info: EdgeInfo)
    ensures LearnSeq(sites, HeldSteps(held, newSlot, info)) == LearnAll(sites, held, newSlot, info)
  {
    if held != [] {
      var init := held[..|held| - 1];
      LearnAllIsSeq(sites, init, newSlot, info);
      assert HeldSteps(held, newSlot, info)[..|held| - 1] == HeldSteps(init, newSlot, info);
    }
  }

  lemma KnownPairsLogNothing(log: seq<Report>, sites: Sites, held: seq<nat>, newSlot: nat, info: EdgeInfo)
    requires PairsWith(held, newSlot) <= sites.Keys
    ensures LogsSeq(log, log, sites, HeldSteps(held, newSlot, info))
  {
    hide LogsSeq;
    var steps := HeldSteps(held, newSlot, info);
    forall i | 0 <= i < |steps|
      ensures steps[i].edge.0 == steps[i].edge.1 || steps[i].edge in sites
    {
      assert held[i] != newSlot ==> (held[i], newSlot) in PairsWith(held, newSlot);
    }
    KnownStepsLogNothing(log, sites, steps);
  }

  /** Recording every pair of a nested acquisition, in the order of the held stack. */
  ghost function LearnAll(sites: Sites, held: seq<nat>, newSlot: nat, info: EdgeInfo): Sites {
    if held == [] then sites
    else Learn(LearnAll(sites, held[..|held| - 1], newSlot, info), (held[|held| - 1], newSlot), info)
  }

  lemma {:induction false} LearnAllPairs(sites: Sites, held: seq<nat>, newSlot: nat, info: EdgeInfo)
    ensures LearnAll(sites, held, newSlot, info).Keys == sites.Keys + PairsWith(held, newSlot)
    ensures PairsWith(held, newSlot) <= sites.Keys ==> LearnAll(sites, held, newSlot, info) == sites
  {
    if held != [] {
      var init, last := held[..|held| - 1], held[|held| - 1];
      LearnAllPairs(sites, init, newSlot, info);
      assert held == init + [last];
      PairsWithAppend(init, last, newSlot);
      assert PairsWith(init, newSlot) <= PairsWith(held, newSlot);
      assert last != newSlot ==> (last, newSlot) in PairsWith(held, newSlot);
    }
  }
}
