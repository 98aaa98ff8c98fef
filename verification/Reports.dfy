/** What a potential-deadlock report records, and the pairs an acquisition observes. Printing is
    not modelled: a report is a record appended to a log. */
module Reports {
  import opened Slots
  import opened Digraph
  import opened PathSearch

  datatype Option<+T> = None | Some(value: T)

  datatype EdgeInfo = EdgeInfo(threadSlot: int, acquirePc: nat)

  const UNKNOWN_EDGE_INFO := EdgeInfo(INVALID_SLOT, 0)

  datatype Report = Report(from: nat, to: nat, chain: seq<nat>, newInfo: EdgeInfo, infos: seq<EdgeInfo>)

  /** The (held, new) pairs that acquiring `newSlot` while holding `held` observes. */
  ghost function PairsWith(held: seq<nat>, newSlot: nat): set<Edge> {
    set h | h in held && h != newSlot :: (h, newSlot)
  }

  lemma PairsWithAppend(held: seq<nat>, h: nat, newSlot: nat)
    ensures PairsWith(held + [h], newSlot) ==
            PairsWith(held, newSlot) + if h == newSlot then {} else {(h, newSlot)}
  {
  }

  /** The observed pairs, each with the site recorded for it. */
  type Sites = map<Edge, EdgeInfo>

  /** Recording a pair: a pair already present keeps its site. */
  ghost function Learn(sites: Sites, e: Edge, info: EdgeInfo): Sites {
    if e.0 == e.1 || e in sites then sites else sites[e := info]
  }

  /** The report names a real cycle of the recorded pairs plus the new edge, and the recorded site
      of every old edge on it. */
  ghost predicate IsWitness(r: Report, sites: Sites) {
    && r.from != r.to
    && ChainBetween(sites.Keys, r.to, r.from, r.chain)
    && |r.infos| == |r.chain| - 1
    && forall i :: 0 <= i < |r.infos| ==>
         (r.chain[i], r.chain[i + 1]) in sites && r.infos[i] == sites[(r.chain[i], r.chain[i + 1])]
  }

  /** The log after recording `e`: one more report exactly when the pair is new and closes a
      cycle, and then a report that witnesses that cycle. */
  ghost predicate LogsCycle(before: seq<Report>, after: seq<Report>, sites: Sites, e: Edge, info: EdgeInfo) {
    if e.0 != e.1 && e !in sites && Reaches(sites.Keys, e.1, e.0) then
      && |after| == |before| + 1 && after[..|before|] == before
      && var r := after[|before|]; r.from == e.0 && r.to == e.1 && r.newInfo == info && IsWitness(r, sites)
    else
      after == before
  }

  // ---------------------------------------------------------------- several insertions

  /** One call of the edge insertion. */
  datatype Insertion = Insertion(edge: Edge, info: EdgeInfo)

  ghost function LearnSeq(sites: Sites, steps: seq<Insertion>): Sites {
    if steps == [] then sites
    else
      var last := steps[|steps| - 1];
      Learn(LearnSeq(sites, steps[..|steps| - 1]), last.edge, last.info)
  }

  /** The log after those insertions in that order, each of them as exact as a single one. */
  ghost predicate LogsSeq(before: seq<Report>, after: seq<Report>, sites: Sites, steps: seq<Insertion>)
    decreases |steps|
  {
    if steps == [] then after == before
    else
      var init, last := steps[..|steps| - 1], steps[|steps| - 1];
      exists middle :: LogsSeq(before, middle, sites, init) &&
                       LogsCycle(middle, after, LearnSeq(sites, init), last.edge, last.info)
  }

  ghost function EdgesOf(steps: seq<Insertion>): seq<Edge> {
    seq(|steps|, i requires 0 <= i < |steps| => steps[i].edge)
  }

  lemma NothingLogged(log: seq<Report>, sites: Sites)
    ensures LogsSeq(log, log, sites, [])
  {
  }

  lemma LogsSeqStep(before: seq<Report>, middle: seq<Report>, after: seq<Report>, sites: Sites, steps: seq<Insertion>,
                    step: Insertion)
    requires LogsSeq(before, middle, sites, steps)
    requires LogsCycle(middle, after, LearnSeq(sites, steps), step.edge, step.info)
    ensures LogsSeq(before, after, sites, steps + [step])
    ensures LearnSeq(sites, steps + [step]) == Learn(LearnSeq(sites, steps), step.edge, step.info)
  {
    assert (steps + [step])[..|steps|] == steps;
  }

  lemma {:induction false} LogsSeqJoin(before: seq<Report>, middle: seq<Report>, after: seq<Report>, sites: Sites,
                                       p: seq<Insertion>, q: seq<Insertion>)
    requires LogsSeq(before, middle, sites, p) && LogsSeq(middle, after, LearnSeq(sites, p), q)
    ensures LogsSeq(before, after, sites, p + q)
    ensures LearnSeq(sites, p + q) == LearnSeq(LearnSeq(sites, p), q)
    decreases |q|
  {
    hide LogsCycle;
    if q == [] {
      assert p + q == p;
    } else {
      var init, last := q[..|q| - 1], q[|q| - 1];
      var m :| LogsSeq(middle, m, LearnSeq(sites, p), init) &&
               LogsCycle(m, after, LearnSeq(LearnSeq(sites, p), init), last.edge, last.info);
      LogsSeqJoin(before, middle, m, sites, p, init);
      LogsSeqStep(before, m, after, sites, p + init, last);
      assert p + init + [last] == p + q;
    }
  }

  /** Graph and log after a sequence of insertions. */
  ghost predicate Performs(before: seq<Report>, after: seq<Report>, sites: Sites, sites': Sites,
                           steps: seq<Insertion>) {
    sites' == LearnSeq(sites, steps) && LogsSeq(before, after, sites, steps)
  }

  lemma PerformsNothing(log: seq<Report>, sites: Sites)
    ensures Performs(log, log, sites, sites, [])
  {
  }

  lemma PerformsBoth(before: seq<Report>, middle: seq<Report>, after: seq<Report>, sites: Sites, sites': Sites,
                     sites'': Sites, p: seq<Insertion>, q: seq<Insertion>)
    requires Performs(before, middle, sites, sites', p) && Performs(middle, after, sites', sites'', q)
    ensures Performs(before, after, sites, sites'', p + q)
  {
    hide LogsSeq, LearnSeq;
    LogsSeqJoin(before, middle, after, sites, p, q);
  }

  /** Earlier reports survive, and there are as many new ones as the insertions that find their edge missing
      and its target already reaching its source. */
  lemma {:induction false} LogsSeqCount(before: seq<Report>, after: seq<Report>, sites: Sites, steps: seq<Insertion>)
    requires LogsSeq(before, after, sites, steps)
    ensures before <= after && |after| == |before| + ReportsFor(sites.Keys, EdgesOf(steps))
    ensures LearnSeq(sites, steps).Keys == InsertAll(sites.Keys, EdgesOf(steps))
  {
    hide IsWitness, Reaches;
    if steps != [] {
      var init, last := steps[..|steps| - 1], steps[|steps| - 1];
      var middle :| LogsSeq(before, middle, sites, init) &&
                    LogsCycle(middle, after, LearnSeq(sites, init), last.edge, last.info);
      LogsSeqCount(before, middle, sites, init);
      assert EdgesOf(steps)[..|steps| - 1] == EdgesOf(init);
      assert middle <= after;
    }
  }

  /** Every new report is for a pair that was not recorded and now is, with the site recorded for it. */
  ghost predicate ReportsAreSited(before: seq<Report>, after: seq<Report>, sites: Sites, sites': Sites) {
    && before <= after
    && forall k :: |before| <= k < |after| ==>
         var pair := (after[k].from, after[k].to);
         pair !in sites && pair in sites' && after[k].newInfo == sites'[pair]
  }

  lemma {:induction false} LogsSeqSites(before: seq<Report>, after: seq<Report>, sites: Sites, steps: seq<Insertion>)
    requires LogsSeq(before, after, sites, steps)
    ensures ReportsAreSited(before, after, sites, LearnSeq(sites, steps))
    ensures forall e :: e in sites ==> e in LearnSeq(sites, steps) && LearnSeq(sites, steps)[e] == sites[e]
    decreases |steps|
  {
    hide IsWitness, Reaches;
    if steps != [] {
      var init, last := steps[..|steps| - 1], steps[|steps| - 1];
      var middle :| LogsSeq(before, middle, sites, init) &&
                    LogsCycle(middle, after, LearnSeq(sites, init), last.edge, last.info);
      LogsSeqSites(before, middle, sites, init);
      forall k | |before| <= k < |after|
        ensures var pair := (after[k].from, after[k].to);
                pair !in sites && pair in LearnSeq(sites, steps) && after[k].newInfo == LearnSeq(sites, steps)[pair]
      {
        if k < |middle| {
          assert after[k] == middle[k];
        }
      }
    }
  }

  lemma PerformsSites(before: seq<Report>, after: seq<Report>, sites: Sites, sites': Sites, steps: seq<Insertion>)
    requires Performs(before, after, sites, sites', steps)
    ensures ReportsAreSited(before, after, sites, sites')
  {
    LogsSeqSites(before, after, sites, steps);
  }

  /** Neither thread nor call site: what is recorded while sites are not reported. */
  predicate Unattributed(site: EdgeInfo) {
    site.threadSlot == INVALID_SLOT && site.acquirePc == 0
  }

  ghost predicate NewSitesUnattributed(sites: Sites, sites': Sites) {
    forall e :: e in sites' && e !in sites ==> Unattributed(sites'[e])
  }

  ghost predicate NewReportsUnattributed(before: seq<Report>, after: seq<Report>) {
    forall k :: |before| <= k < |after| ==> Unattributed(after[k].newInfo)
  }

  lemma UnattributedReports(before: seq<Report>, after: seq<Report>, sites: Sites, sites': Sites)
    requires ReportsAreSited(before, after, sites, sites') && NewSitesUnattributed(sites, sites')
    ensures NewReportsUnattributed(before, after)
  {
    forall k | |before| <= k < |after|
      ensures Unattributed(after[k].newInfo)
    {
      assert Unattributed(sites'[(after[k].from, after[k].to)]);
    }
  }

  lemma PerformsCount(before: seq<Report>, after: seq<Report>, sites: Sites, sites': Sites, steps: seq<Insertion>)
    requires Performs(before, after, sites, sites', steps)
    ensures before <= after && |after| == |before| + ReportsFor(sites.Keys, EdgesOf(steps))
    ensures sites'.Keys == InsertAll(sites.Keys, EdgesOf(steps))
  {
    LogsSeqCount(before, after, sites, steps);
  }

  /** Inserting what is there already changes neither graph nor log. */
  lemma {:induction false} KnownStepsLogNothing(log: seq<Report>, sites: Sites, steps: seq<Insertion>)
    requires forall i :: 0 <= i < |steps| ==> steps[i].edge.0 == steps[i].edge.1 || steps[i].edge in sites
    ensures LogsSeq(log, log, sites, steps) && LearnSeq(sites, steps) == sites
  {
    if steps != [] {
      KnownStepsLogNothing(log, sites, steps[..|steps| - 1]);
    }
  }

  /** The site matrix holds the site of every recorded pair. */
  ghost predicate Records(info: array2<EdgeInfo>, sites: Sites)
    reads info
  {
    forall u: nat, v: nat :: (u, v) in sites ==> u < info.Length0 && v < info.Length1 && info[u, v] == sites[(u, v)]
  }

  method RecordSite(info: array2<EdgeInfo>, from: nat, to: nat, site: EdgeInfo, ghost sites: Sites)
    requires from < info.Length0 && to < info.Length1 && Records(info, sites)
    modifies info
    ensures Records(info, sites[(from, to) := site])
  {
    info[from, to] := site;
  }

  /** The loop that copies the recorded site of every edge of the chain. */
  method ChainInfos(info: array2<EdgeInfo>, chain: seq<nat>, ghost sites: Sites) returns (infos: seq<EdgeInfo>)
    requires Records(info, sites) && IsPath(sites.Keys, chain)
    ensures |infos| == |chain| - 1
    ensures forall i :: 0 <= i < |infos| ==>
              (chain[i], chain[i + 1]) in sites && infos[i] == sites[(chain[i], chain[i + 1])]
  {
    infos := [];
    for i := 0 to |chain| - 1
      invariant |infos| == i
      invariant forall j :: 0 <= j < i ==>
                  (chain[j], chain[j + 1]) in sites && infos[j] == sites[(chain[j], chain[j + 1])]
    {
      assert (chain[i], chain[i + 1]) in sites;
      infos := infos + [info[chain[i], chain[i + 1]]];
    }
  }
}
