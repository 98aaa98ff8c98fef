/** The graph owned by the ring-buffer worker: adjacency bits, predecessor bits, the predecessor
    snapshot that application threads read, and an incrementally maintained transitive closure. */
module RbGraph {
  import opened Words
  import opened Digraph
  import opened Matrices
  import opened PathSearch
  import opened Pigeonhole
  import opened Reports

  class WorkerGraph {
    const maxSlots: nat
    const adjacency: array2<Word>
    const predecessors: array2<Word>
    const snapshot: array2<Word>
    const reach: array2<Word>
    const edgeInfo: array2<EdgeInfo>
    var slotCount: nat
    var reports: seq<Report>

    /** The pairs inserted so far, with their sites. */
    ghost var sites: Sites

    ghost predicate Shaped()
      reads this
    {
      && adjacency.Length0 == predecessors.Length0 == snapshot.Length0 == reach.Length0 == maxSlots
      && adjacency.Length1 == predecessors.Length1 == snapshot.Length1 == reach.Length1 == WordCount(maxSlots)
      && adjacency != predecessors && adjacency != snapshot && adjacency != reach
      && predecessors != snapshot && predecessors != reach && snapshot != reach
      && edgeInfo.Length0 == edgeInfo.Length1 == maxSlots
      && slotCount <= maxSlots
    }

    /** The redundant structures describe one edge set and its exact closure. */
    ghost predicate Agrees()
      reads this, adjacency, predecessors, snapshot, reach, edgeInfo
    {
      && Shaped()
      && Within(sites.Keys, slotCount)
      && Mirrors(adjacency, sites.Keys)
      && Mirrors(predecessors, Transpose(sites.Keys))
      && Mirrors(snapshot, Transpose(sites.Keys))
      && Mirrors(reach, Closure(sites.Keys, slotCount))
      && Records(edgeInfo, sites)
    }

    ghost predicate Valid()
      reads this, adjacency, predecessors, snapshot, reach, edgeInfo
    {
      Agrees() && (reports != [] <==> Cyclic(sites.Keys))
    }

    constructor (maxSlots: nat)
      ensures Valid() && this.maxSlots == maxSlots && sites == map[] && reports == [] && slotCount == 0
      ensures fresh(adjacency) && fresh(predecessors) && fresh(snapshot) && fresh(reach) && fresh(edgeInfo)
    {
      this.maxSlots := maxSlots;
      adjacency := new Word[maxSlots, WordCount(maxSlots)]((_, _) => 0);
      predecessors := new Word[maxSlots, WordCount(maxSlots)]((_, _) => 0);
      snapshot := new Word[maxSlots, WordCount(maxSlots)]((_, _) => 0);
      reach := new Word[maxSlots, WordCount(maxSlots)]((_, _) => 0);
      edgeInfo := new EdgeInfo[maxSlots, maxSlots]((_, _) => UNKNOWN_EDGE_INFO);
      slotCount, reports, sites := 0, [], map[];
      new;
      EmptyMirrors(adjacency);
      EmptyMirrors(predecessors);
      EmptyMirrors(snapshot);
      EmptyMirrors(reach);
      EmptyClosure(0);
      assert sites.Keys == {} && Transpose({}) == {};
      NoEdgesNoCycle();
    }

    /** A newly registered lock brings no edge with it. */
    method RegisterSlot()
      requires Valid() && slotCount < maxSlots
      modifies `slotCount
      ensures Valid() && slotCount == old(slotCount) + 1
    {
      NewSlotIsIsolated(sites.Keys, slotCount);
      slotCount := slotCount + 1;
    }

    /** "Some cycle was reported" can be read off the diagonal of the reachability matrix. */
    lemma ReportedIffDiagonalBit()
      requires Valid()
      ensures reports != [] <==> exists v: nat :: v < slotCount && TestBit(reach, v, v)
    {
      var edges := sites.Keys;
      if Cyclic(edges) {
        var v: nat :| Reaches(edges, v, v);
        var p :| PathBetween(edges, v, v, p);
        PathStaysWithin(edges, slotCount, v, v, p);
        assert p[0] < slotCount;
        assert (v, v) in Closure(edges, slotCount);
        assert TestBit(reach, v, v);
      }
      if v: nat :| v < slotCount && TestBit(reach, v, v) {
        assert (v, v) in Closure(edges, slotCount);
      }
    }

    // -------------------------------------------------------------- one edge

    /** lockdep_rb_report_cycle_if_any: a report exactly when `to` already reaches `from`. The two
        early returns after the reachability test are never taken. */
    method ReportCycleIfAny(from: nat, to: nat, newInfo: EdgeInfo)
      requires Agrees() && from < slotCount && to < slotCount && from != to && (from, to) !in sites
      modifies `reports
      ensures LogsCycle(old(reports), reports, sites, (from, to), newInfo)
    {
      hide Words.Bit;
      assert TestBit(reach, to, from) <==> (to, from) in Closure(sites.Keys, slotCount);
      if !TestBit(reach, to, from) {
        return;
      }
      var found, chain := FindExistingChain(Bits(adjacency), sites.Keys, slotCount, maxSlots, from, to);
      if !found {
        assert false;
      }
      var infos := ChainInfos(edgeInfo, chain, sites);
      reports := reports + [Report(from, to, chain, newInfo, infos)];
    }

    /** What `to` reaches, and `to` itself. */
    method RowTargets(to: nat, ghost closure: set<Edge>) returns (targets: array<Word>)
      requires Shaped() && to < slotCount && Mirrors(reach, closure)
      ensures fresh(targets) && targets.Length == WordCount(maxSlots)
      ensures forall c: nat :: c / 64 < targets.Length ==>
                (RowBit(targets, c) <==> c == to || (to, c) in closure)
    {
      hide Words.Bit;
      targets := new Word[WordCount(maxSlots)](_ => 0);
      for word := 0 to targets.Length
        invariant forall w :: 0 <= w < word ==> targets[w] == reach[to, w]
      {
        targets[word] := reach[to, word];
      }
      targets[to / 64] := OrWord(targets[to / 64], MaskWord(to % 64));
      forall c: nat | c / 64 < targets.Length
        ensures RowBit(targets, c) <==> c == to || (to, c) in closure
      {
        assert TestBit(reach, to, c) <==> (to, c) in closure;
        if c / 64 == to / 64 && c % 64 == to % 64 { assert c == to; }
      }
    }

    /** lockdep_rb_update_reachability, in place, row by row and word by word. */
    method UpdateReachability(from: nat, to: nat, ghost closure: set<Edge>)
      requires Shaped() && from < slotCount && to < slotCount
      requires Mirrors(reach, closure)
      requires forall e :: e in closure ==> e.0 < slotCount && e.1 < slotCount
      modifies reach
      ensures Mirrors(reach, ClosureStep(closure, slotCount, from, to))
    {
      hide Words.Bit;
      var words := WordCount(maxSlots);
      var targets := RowTargets(to, closure);
      for src := 0 to slotCount
        modifies reach
        invariant forall r: nat, w: nat :: src <= r < maxSlots && w < words ==> reach[r, w] == old(reach[r, w])
        invariant forall r: nat, c: nat :: r < src && c / 64 < words ==>
                    (TestBit(reach, r, c) <==> (r, c) in ClosureStep(closure, slotCount, from, to))
      {
        assert old(TestBit(reach, src, from)) <==> (src, from) in closure;
        assert forall w: nat :: w < words ==> reach[src, w] == old(reach[src, w]);
        if src != from && !TestBit(reach, src, from) {
          forall c: nat | c / 64 < words
            ensures TestBit(reach, src, c) <==> (src, c) in ClosureStep(closure, slotCount, from, to)
          {
            assert old(TestBit(reach, src, c)) <==> (src, c) in closure;
          }
          continue;
        }
        OrRow(src, targets);
        forall c: nat | c / 64 < words
          ensures TestBit(reach, src, c) <==> (src, c) in ClosureStep(closure, slotCount, from, to)
        {
          assert old(TestBit(reach, src, c)) <==> (src, c) in closure;
          assert reach[src, c / 64] == OrWord(old(reach[src, c / 64]), targets[c / 64]);
          assert RowBit(targets, c) <==> c == to || (to, c) in closure;
          InClosureStep(closure, slotCount, from, to, src, c);
        }
      }
      forall r: nat, c: nat | slotCount <= r < maxSlots && c / 64 < words
        ensures TestBit(reach, r, c) <==> (r, c) in ClosureStep(closure, slotCount, from, to)
      {
        assert old(TestBit(reach, r, c)) <==> (r, c) in closure;
      }
    }

    /** The inner loop of that update. */
    method OrRow(src: nat, targets: array<Word>)
      requires Shaped() && src < maxSlots && targets.Length == WordCount(maxSlots)
      modifies reach
      ensures forall r: nat, w: nat :: r < maxSlots && w < reach.Length1 && r != src ==> reach[r, w] == old(reach[r, w])
      ensures forall w: nat :: w < reach.Length1 ==> reach[src, w] == OrWord(old(reach[src, w]), targets[w])
    {
      hide Words.Bit;
      for word := 0 to WordCount(maxSlots)
        invariant forall r: nat, w: nat :: r < maxSlots && w < reach.Length1 && (r != src || word <= w) ==>
                  reach[r, w] == old(reach[r, w])
        invariant forall w: nat :: w < word ==> reach[src, w] == OrWord(old(reach[src, w]), targets[w])
      {
        reach[src, word] := OrWord(reach[src, word], targets[word]);
      }
    }

    /** lockdep_rb_add_edge_if_new */
    method AddEdgeIfNew(from: nat, to: nat, info: EdgeInfo)
      requires Valid() && from < slotCount && to < slotCount
      modifies this`sites, this`reports, adjacency, predecessors, snapshot, reach, edgeInfo
      ensures Valid()
      ensures sites == Learn(old(sites), (from, to), info)
      ensures LogsCycle(old(reports), reports, old(sites), (from, to), info)
      ensures from == to || (from, to) in old(sites) ==>
                && unchanged(adjacency) && unchanged(predecessors) && unchanged(snapshot) && unchanged(reach)
                && unchanged(edgeInfo)
    {
      hide Words.Bit, Reports.Records, Reports.IsWitness, Digraph.Reaches, Digraph.Cyclic, Digraph.Closure;
      assert TestBit(predecessors, to, from) <==> (to, from) in Transpose(sites.Keys);
      if from == to || TestBit(predecessors, to, from) {
        return;
      }
      ReportCycleIfAny(from, to, info);
      AddEdgeCyclic(sites.Keys, from, to);
      RecordEdge(from, to, info);
    }

    /** The stores that follow the report. */
    method RecordEdge(from: nat, to: nat, info: EdgeInfo)
      requires Agrees() && from < slotCount && to < slotCount && from != to && (from, to) !in sites
      modifies this`sites, adjacency, predecessors, snapshot, reach, edgeInfo
      ensures Agrees() && sites == old(sites)[(from, to) := info]
      ensures sites.Keys == old(sites).Keys + {(from, to)}
    {
      hide Words.Bit, Matrices.Mirrors, Matrices.Transpose, Reports.Records, Digraph.Closure, Digraph.ClosureStep;
      PublishEdge(from, to, info);
      ClosureWithin(sites.Keys, slotCount);
      UpdateReachability(from, to, Closure(sites.Keys, slotCount));
      ClosureStepIsExact(sites.Keys, slotCount, from, to);
      TransposeAdd(sites.Keys, from, to);
      sites := sites[(from, to) := info];
      assert sites.Keys == old(sites).Keys + {(from, to)};
    }

    method PublishEdge(from: nat, to: nat, info: EdgeInfo)
      requires Agrees() && from < slotCount && to < slotCount
      modifies adjacency, predecessors, snapshot, edgeInfo
      ensures Mirrors(adjacency, sites.Keys + {(from, to)})
      ensures Mirrors(predecessors, Transpose(sites.Keys) + {(to, from)})
      ensures Mirrors(snapshot, Transpose(sites.Keys) + {(to, from)})
      ensures Records(edgeInfo, sites[(from, to) := info])
    {
      hide Words.Bit;
      SetBit(adjacency, from, to, sites.Keys);
      RecordSite(edgeInfo, from, to, info, sites);
      SetBit(predecessors, to, from, Transpose(sites.Keys));
      SetBit(snapshot, to, from, Transpose(sites.Keys));
    }

    // -------------------------------------------------------------- one target's bitset

    /** lockdep_rb_process_edge_bits. `visited` lists the sources in the order the word loop meets
        them: ascending, and each source bit whose edge is still unknown exactly once; the report log is
        that of inserting them in this order. */
    method ProcessEdgeBits(to: nat, fromBits: seq<Word>, infos: Option<seq<EdgeInfo>>) returns (ghost visited: seq<nat>)
      requires Valid() && to < slotCount && |fromBits| == WordCount(maxSlots)
      requires infos.Some? ==> |infos.value| == maxSlots
      modifies this`sites, this`reports, adjacency, predecessors, snapshot, reach, edgeInfo
      ensures Valid()
      ensures Ascending(visited)
      ensures forall f: nat :: f in visited <==> f in SlotsOf(fromBits) && (f, to) !in old(sites)
      ensures sites == LearnInto(old(sites), SlotsOf(fromBits), to, slotCount, infos)
      ensures RecordsSources(old(reports), reports, old(sites), sites, visited, to, slotCount, infos)
      ensures ReportsAreSited(old(reports), reports, old(sites), sites)
      ensures infos.None? ==>
                NewSitesUnattributed(old(sites), sites) && NewReportsUnattributed(old(reports), reports)
    {
      hide Words.Bit, LearnInto, RecordsSources, ReportsAreSited, SlotsOf, SourcesIn, Matrices.Mirrors, Reports.Records,
           Digraph.Closure, Digraph.Cyclic, Learn, SourceSteps, LogsSeq, LearnSeq;
      visited := [];
      RecordsNoSource(reports, sites, to, slotCount, infos);
      for word := 0 to WordCount(maxSlots)
        invariant Valid()
        invariant Ascending(visited)
        invariant forall f: nat :: f in visited <==> f < 64 * word && f in SlotsOf(fromBits) && (f, to) !in old(sites)
        invariant RecordsSources(old(reports), reports, old(sites), sites, visited, to, slotCount, infos)
      {
        ghost var logged, known := reports, sites;
        var bits := AndNotWord(fromBits[word], predecessors[to, word]);
        ghost var here := SourcesIn(word, bits);
        WhatIsRecorded(old(reports), reports, old(sites), sites, visited, to, slotCount, infos);
        UnknownInWord(to, word, fromBits, old(sites), visited, infos);
        ProcessWord(to, word, bits, infos);
        AscendingConcat(visited, here, 64 * word);
        RecordsBoth(old(reports), logged, reports, old(sites), known, sites, visited, here, to, slotCount, infos);
        visited := visited + here;
      }
      WhatIsRecorded(old(reports), reports, old(sites), sites, visited, to, slotCount, infos);
      SlotsAreInRange(fromBits);
      LearnIntoSkipsKnown(old(sites), Elements(visited), SlotsOf(fromBits), to, slotCount, infos);
      SourcesAreSited(old(reports), reports, old(sites), sites, visited, to, slotCount, infos);
    }

    /** The bits of one word that are not yet predecessors, while the words before it are done. */
    lemma UnknownInWord(to: nat, word: nat, fromBits: seq<Word>, before: Sites, visited: seq<nat>,
                        infos: Option<seq<EdgeInfo>>)
      requires Valid() && to < slotCount && word < |fromBits| == WordCount(maxSlots)
      requires sites == LearnInto(before, Elements(visited), to, slotCount, infos)
      requires forall f :: f in visited ==> f < 64 * word
      ensures var here := SourcesIn(word, AndNotWord(fromBits[word], predecessors[to, word]));
              && Ascending(here)
              && forall f: nat :: f in here <==> f / 64 == word && f in SlotsOf(fromBits) && (f, to) !in before
    {
      hide Words.Bit, LearnInto;
      var bits := AndNotWord(fromBits[word], predecessors[to, word]);
      SourcesInExact(word, bits);
      forall f: nat
        ensures f in SourcesIn(word, bits) <==> f / 64 == word && f in SlotsOf(fromBits) && (f, to) !in before
      {
        if f / 64 == word {
          assert TestBit(predecessors, to, f) <==> (to, f) in Transpose(sites.Keys);
          LearnIntoKnows(before, visited, to, slotCount, infos, f);
        }
      }
    }

    /** The inner loop: `ctz` names the lowest remaining source, `bits &= bits - 1` removes it. */
    method ProcessWord(to: nat, word: nat, unknown: Word, infos: Option<seq<EdgeInfo>>)
      requires Valid() && to < slotCount && word < WordCount(maxSlots)
      modifies this`sites, this`reports, adjacency, predecessors, snapshot, reach, edgeInfo
      ensures Valid()
      ensures RecordsSources(old(reports), reports, old(sites), sites, SourcesIn(word, unknown), to, slotCount, infos)
    {
      hide Words.Bit, Learn, LogsCycle, Matrices.Mirrors, Reports.Records, Digraph.Closure, Digraph.Cyclic, InfoAt,
           RecordsSources, SourcesIn, LearnInto, SourceSteps, LogsSeq, LearnSeq, Ctz;
      ghost var visited: seq<nat> := [];
      ghost var all := SourcesIn(word, unknown);
      RecordsNoSource(reports, sites, to, slotCount, infos);
      var bits := unknown;
      while bits != 0
        invariant Valid()
        invariant visited + SourcesIn(word, bits) == all
        invariant RecordsSources(old(reports), reports, old(sites), sites, visited, to, slotCount, infos)
        decreases bits
      {
        ghost var logged, known := reports, sites;
        var from := word * 64 + Ctz(bits);
        if from < slotCount {
          AddEdgeIfNew(from, to, InfoAt(infos, from));
        }
        RecordsOneMore(old(reports), logged, reports, old(sites), known, sites, visited, from, to, slotCount, infos);
        NextSource(word, bits, visited);
        visited := visited + [from];
        bits := DropLowestWord(bits);
      }
      NoMoreSources(word);
      assert visited == all;
    }
  }

  ghost predicate SameWords(a: array2<Word>, b: array2<Word>)
    reads a, b
  {
    a.Length0 == b.Length0 && a.Length1 == b.Length1 &&
    forall r: nat, w: nat :: r < a.Length0 && w < a.Length1 ==> a[r, w] == b[r, w]
  }

  lemma MirrorsSameWords(a: array2<Word>, b: array2<Word>, rel: set<Edge>)
    requires a.Length0 == b.Length0 && a.Length1 == b.Length1 && Mirrors(a, rel) && Mirrors(b, rel)
    ensures SameWords(a, b)
  {
    hide Mirrors;
    forall r: nat, w: nat | r < a.Length0 && w < a.Length1
      ensures a[r, w] == b[r, w]
    {
      MirrorsDetermines(a, b, rel, r, w);
    }
  }

  /** The pairs determine every word of all four matrices and the verdict: however two graphs came by
      the same pairs (one by one, in batches, in another order), they are in the same state. */
  lemma SamePairsSameMatrices(g: WorkerGraph, h: WorkerGraph)
    requires g.Valid() && h.Valid() && g.maxSlots == h.maxSlots && g.slotCount == h.slotCount &&
             g.sites.Keys == h.sites.Keys
    ensures SameWords(g.adjacency, h.adjacency) && SameWords(g.predecessors, h.predecessors)
    ensures SameWords(g.snapshot, h.snapshot) && SameWords(g.snapshot, h.predecessors) && SameWords(g.reach, h.reach)
    ensures g.reports != [] <==> h.reports != []
  {
    hide Mirrors, SameWords;
    MirrorsSameWords(g.adjacency, h.adjacency, g.sites.Keys);
    MirrorsSameWords(g.predecessors, h.predecessors, Transpose(g.sites.Keys));
    MirrorsSameWords(g.snapshot, h.snapshot, Transpose(g.sites.Keys));
    MirrorsSameWords(g.snapshot, h.predecessors, Transpose(g.sites.Keys));
    MirrorsSameWords(g.reach, h.reach, Closure(g.sites.Keys, g.slotCount));
  }

  /** Recording the edges from a set of sources to one target; a recorded edge keeps its site. */
  ghost function LearnInto(sites: Sites, sources: set<nat>, to: nat, slotCount: nat,
                           infos: Option<seq<EdgeInfo>>): Sites {
    map e | e in sites.Keys + EdgesInto(sources, to, slotCount) ::
      if e in sites then sites[e] else InfoAt(infos, e.0)
  }

  /** The edge insertions for a list of sources; unregistered ones are passed over. */
  ghost function SourceSteps(visited: seq<nat>, to: nat, slotCount: nat, infos: Option<seq<EdgeInfo>>): seq<Insertion> {
    if visited == [] then []
    else
      var last := visited[|visited| - 1];
      var steps := SourceSteps(visited[..|visited| - 1], to, slotCount, infos);
      if last < slotCount then steps + [Insertion((last, to), InfoAt(infos, last))] else steps
  }

  /** Insertions for one target, by ascending source. */
  ghost predicate ForOneTarget(steps: seq<Insertion>, to: nat) {
    && (forall k :: 0 <= k < |steps| ==> steps[k].edge.1 == to)
    && forall i, j :: 0 <= i < j < |steps| ==> steps[i].edge.0 < steps[j].edge.0
  }

  lemma {:induction false} SourceStepsAscend(visited: seq<nat>, to: nat, slotCount: nat, infos: Option<seq<EdgeInfo>>)
    requires Ascending(visited)
    ensures var steps := SourceSteps(visited, to, slotCount, infos);
            ForOneTarget(steps, to) && forall k :: 0 <= k < |steps| ==> steps[k].edge.0 in visited
  {
    hide InfoAt;
    if visited != [] {
      var init := visited[..|visited| - 1];
      SourceStepsAscend(init, to, slotCount, infos);
      assert visited == init + [visited[|visited| - 1]];
      assert forall f :: f in init ==> f < visited[|visited| - 1];
    }
  }

  /** Graph and log after the sources in `visited` have been inserted in that order. */
  ghost predicate RecordsSources(before: seq<Report>, after: seq<Report>, sites: Sites, sites': Sites,
                                 visited: seq<nat>, to: nat, slotCount: nat, infos: Option<seq<EdgeInfo>>) {
    && sites' == LearnInto(sites, Elements(visited), to, slotCount, infos)
    && LogsSeq(before, after, sites, SourceSteps(visited, to, slotCount, infos))
  }

  lemma WhatIsRecorded(before: seq<Report>, after: seq<Report>, sites: Sites, sites': Sites, visited: seq<nat>, to: nat,
                       slotCount: nat, infos: Option<seq<EdgeInfo>>)
    requires RecordsSources(before, after, sites, sites', visited, to, slotCount, infos)
    ensures sites' == LearnInto(sites, Elements(visited), to, slotCount, infos)
    ensures sites' == LearnSeq(sites, SourceSteps(visited, to, slotCount, infos))
    ensures LogsSeq(before, after, sites, SourceSteps(visited, to, slotCount, infos))
  {
    LearnIntoIsSeq(sites, visited, to, slotCount, infos);
  }

  lemma SourcesAreSited(before: seq<Report>, after: seq<Report>, sites: Sites, sites': Sites, visited: seq<nat>,
                        to: nat, slotCount: nat, infos: Option<seq<EdgeInfo>>)
    requires RecordsSources(before, after, sites, sites', visited, to, slotCount, infos)
    ensures ReportsAreSited(before, after, sites, sites')
    ensures infos.None? ==> NewSitesUnattributed(sites, sites') && NewReportsUnattributed(before, after)
  {
    hide LogsSeq, LearnSeq, SourceSteps;
    LearnIntoIsSeq(sites, visited, to, slotCount, infos);
    LogsSeqSites(before, after, sites, SourceSteps(visited, to, slotCount, infos));
    if infos.None? {
      UnattributedReports(before, after, sites, sites');
    }
  }

  lemma RecordsNoSource(log: seq<Report>, sites: Sites, to: nat, slotCount: nat, infos: Option<seq<EdgeInfo>>)
    ensures RecordsSources(log, log, sites, sites, [], to, slotCount, infos)
  {
    LearnIntoKnows(sites, [], to, slotCount, infos, 0);
    NothingLogged(log, sites);
  }

  lemma {:induction false} LearnIntoIsSeq(sites: Sites, visited: seq<nat>, to: nat, slotCount: nat,
                                          infos: Option<seq<EdgeInfo>>)
    ensures LearnSeq(sites, SourceSteps(visited, to, slotCount, infos)) ==
            LearnInto(sites, Elements(visited), to, slotCount, infos)
  {
    hide LearnInto, InfoAt, Learn;
    if visited == [] {
      LearnIntoKnows(sites, visited, to, slotCount, infos, 0);
    } else {
      var init, last := visited[..|visited| - 1], visited[|visited| - 1];
      assert visited == init + [last];
      LearnIntoIsSeq(sites, init, to, slotCount, infos);
      LearnIntoOne(sites, init, last, to, slotCount, infos);
      var steps := SourceSteps(init, to, slotCount, infos);
      if last < slotCount {
        assert (steps + [Insertion((last, to), InfoAt(infos, last))])[..|steps|] == steps;
      }
    }
  }

  /** One more source: one more insertion if it is registered, nothing otherwise. */
  lemma RecordsOneMore(before: seq<Report>, middle: seq<Report>, after: seq<Report>, sites: Sites, sites': Sites,
                       sites'': Sites, visited: seq<nat>, from: nat, to: nat, slotCount: nat,
                       infos: Option<seq<EdgeInfo>>)
    requires RecordsSources(before, middle, sites, sites', visited, to, slotCount, infos)
    requires if from < slotCount then
               && sites'' == Learn(sites', (from, to), InfoAt(infos, from))
               && LogsCycle(middle, after, sites', (from, to), InfoAt(infos, from))
             else sites'' == sites' && after == middle
    ensures RecordsSources(before, after, sites, sites'', visited + [from], to, slotCount, infos)
  {
    hide LogsSeq, LogsCycle, LearnInto, InfoAt, LearnSeq, Learn;
    assert (visited + [from])[..|visited|] == visited;
    LearnIntoIsSeq(sites, visited, to, slotCount, infos);
    LearnIntoOne(sites, visited, from, to, slotCount, infos);
    if from < slotCount {
      LogsSeqStep(before, middle, after, sites, SourceSteps(visited, to, slotCount, infos),
                  Insertion((from, to), InfoAt(infos, from)));
    }
  }

  lemma {:induction false} SourceStepsConcat(p: seq<nat>, q: seq<nat>, to: nat, slotCount: nat,
                                             infos: Option<seq<EdgeInfo>>)
    ensures SourceSteps(p + q, to, slotCount, infos) ==
            SourceSteps(p, to, slotCount, infos) + SourceSteps(q, to, slotCount, infos)
    decreases |q|
  {
    if q == [] {
      assert p + q == p;
    } else {
      var init := q[..|q| - 1];
      assert (p + q)[..|p + q| - 1] == p + init;
      SourceStepsConcat(p, init, to, slotCount, infos);
    }
  }

  lemma RecordsBoth(before: seq<Report>, middle: seq<Report>, after: seq<Report>, sites: Sites, sites': Sites,
                    sites'': Sites, p: seq<nat>, q: seq<nat>, to: nat, slotCount: nat, infos: Option<seq<EdgeInfo>>)
    requires RecordsSources(before, middle, sites, sites', p, to, slotCount, infos)
    requires RecordsSources(middle, after, sites', sites'', q, to, slotCount, infos)
    ensures RecordsSources(before, after, sites, sites'', p + q, to, slotCount, infos)
  {
    hide LogsSeq, LearnInto, LearnSeq, SourceSteps;
    LearnIntoIsSeq(sites, p, to, slotCount, infos);
    LearnIntoJoins(sites, p, q, to, slotCount, infos);
    SourceStepsConcat(p, q, to, slotCount, infos);
    LogsSeqJoin(before, middle, after, sites,
                SourceSteps(p, to, slotCount, infos), SourceSteps(q, to, slotCount, infos));
  }

  lemma LearnIntoKnows(sites: Sites, visited: seq<nat>, to: nat, slotCount: nat, infos: Option<seq<EdgeInfo>>, f: nat)
    ensures (f, to) in LearnInto(sites, Elements(visited), to, slotCount, infos) <==>
            (f, to) in sites || (f in visited && f != to && f < slotCount)
    ensures LearnInto(sites, Elements([]), to, slotCount, infos) == sites
  {
  }

  lemma LearnIntoOne(sites: Sites, visited: seq<nat>, from: nat, to: nat, slotCount: nat, infos: Option<seq<EdgeInfo>>)
    ensures LearnInto(sites, Elements(visited + [from]), to, slotCount, infos) ==
            var before := LearnInto(sites, Elements(visited), to, slotCount, infos);
            if from < slotCount then Learn(before, (from, to), InfoAt(infos, from)) else before
  {
    assert Elements(visited + [from]) == Elements(visited) + {from};
  }

  lemma LearnIntoJoins(sites: Sites, p: seq<nat>, q: seq<nat>, to: nat, slotCount: nat, infos: Option<seq<EdgeInfo>>)
    ensures LearnInto(LearnInto(sites, Elements(p), to, slotCount, infos), Elements(q), to, slotCount, infos) ==
            LearnInto(sites, Elements(p + q), to, slotCount, infos)
  {
    assert Elements(p + q) == Elements(p) + Elements(q);
  }

  lemma LearnIntoSkipsKnown(sites: Sites, unknown: set<nat>, sources: set<nat>, to: nat, slotCount: nat,
                            infos: Option<seq<EdgeInfo>>)
    requires forall f: nat :: f in unknown <==> f in sources && (f, to) !in sites
    ensures LearnInto(sites, unknown, to, slotCount, infos) == LearnInto(sites, sources, to, slotCount, infos)
  {
  }

  /** The sources one word of a bitset names, in the order the bit loop meets them. */
  ghost function SourcesIn(word: nat, bits: Word): seq<nat>
    decreases bits
  {
    if bits == 0 then [] else [word * 64 + Ctz(bits)] + SourcesIn(word, DropLowestWord(bits))
  }

  lemma NextSource(word: nat, bits: Word, visited: seq<nat>)
    requires bits != 0
    ensures visited + SourcesIn(word, bits) == visited + [word * 64 + Ctz(bits)] + SourcesIn(word, DropLowestWord(bits))
  {
  }

  lemma NoMoreSources(word: nat)
    ensures SourcesIn(word, 0) == []
  {
  }

  lemma {:induction false} SourcesInExact(word: nat, bits: Word)
    ensures Ascending(SourcesIn(word, bits))
    ensures forall f: nat :: f in SourcesIn(word, bits) <==> f / 64 == word && Bit(bits, f % 64)
    decreases bits
  {
    if bits == 0 {
      forall k: nat { ZeroHasNoBits(k); }
    } else {
      var rest := DropLowestWord(bits);
      SourcesInExact(word, rest);
      forall k: nat { ClearLowest(bits, k); }
      WordBitsAreBelow64(bits, Ctz(bits));
      forall f: nat
        ensures f in SourcesIn(word, bits) <==> f / 64 == word && Bit(bits, f % 64)
      {
        assert f in SourcesIn(word, bits) <==> f == word * 64 + Ctz(bits) || f in SourcesIn(word, rest);
      }
      forall f | f in SourcesIn(word, rest)
        ensures word * 64 + Ctz(bits) < f
      {
        assert Bit(bits, f % 64) && f % 64 != Ctz(bits);
      }
      AscendingConcat([word * 64 + Ctz(bits)], SourcesIn(word, rest), word * 64 + Ctz(bits) + 1);
    }
  }

  lemma AscendingConcat(p: seq<nat>, q: seq<nat>, middle: nat)
    requires Ascending(p) && Ascending(q)
    requires (forall x :: x in p ==> x < middle) && (forall x :: x in q ==> middle <= x)
    ensures Ascending(p + q)
  {
    var all := p + q;
    forall i, j | 0 <= i < j < |all|
      ensures all[i] < all[j]
    {
      if i < |p| <= j {
        assert p[i] in p && q[j - |p|] in q;
      }
    }
  }

  ghost predicate Ascending(p: seq<nat>) {
    forall i, j :: 0 <= i < j < |p| ==> p[i] < p[j]
  }

  /** The site attributed to an edge from `from`: the table's entry, or unknown without a table. */
  function InfoAt(infos: Option<seq<EdgeInfo>>, from: nat): EdgeInfo {
    match infos
    case Some(table) => if from < |table| then table[from] else UNKNOWN_EDGE_INFO
    case None => UNKNOWN_EDGE_INFO
  }

  /** The edges a bitset of sources contributes to one target. */
  ghost function EdgesInto(sources: set<nat>, to: nat, slotCount: nat): set<Edge> {
    set f | f in sources && f != to && f < slotCount :: (f, to)
  }

  lemma EmptyClosure(slotCount: nat)
    ensures Closure({}, slotCount) == {}
  {
    if u: nat, v: nat :| Reaches({}, u, v) {
      var p :| PathBetween({}, u, v, p);
      FirstEdge({}, u, v, p);
    }
  }

  lemma NewSlotIsIsolated(edges: set<Edge>, slotCount: nat)
    requires Within(edges, slotCount)
    ensures Closure(edges, slotCount + 1) == Closure(edges, slotCount)
  {
    forall u: nat, v: nat | Reaches(edges, u, v)
      ensures u < slotCount && v < slotCount
    {
      var p :| PathBetween(edges, u, v, p);
      PathStaysWithin(edges, slotCount, u, v, p);
      assert p[0] < slotCount && p[|p| - 1] < slotCount;
    }
  }
}
