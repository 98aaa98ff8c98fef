/** One drain of the ring-buffer worker: every queued event is first folded into a per-target
    bitset, then each touched target is inserted once. The specification is the plain loop that
    inserts event after event. Rings appear here as the queues they implement. */
module RbDrain {
  import opened Words
  import opened Digraph
  import opened Matrices
  import opened Pigeonhole
  import opened Reports
  import opened RbGraph

  datatype Event = Event(to: int, threadSlot: int, acquirePc: nat, fromBits: seq<Word>)

  /** What a static table holds before anything is stored. */
  const ZERO_EDGE_INFO := EdgeInfo(0, 0)

  function InfoOf(ev: Event): EdgeInfo {
    EdgeInfo(ev.threadSlot, ev.acquirePc)
  }

  /** Some event is for this target. */
  predicate Targets(evs: seq<Event>, to: int) {
    exists ev :: ev in evs && ev.to == to
  }

  /** The position of the first event for this target; past the end if there is none. */
  ghost function FirstTouch(evs: seq<Event>, to: int): nat {
    if evs == [] then 0
    else
      var earlier := FirstTouch(evs[..|evs| - 1], to);
      if earlier < |evs| - 1 then earlier
      else if evs[|evs| - 1].to == to then |evs| - 1
      else |evs|
  }

  lemma {:induction false} FirstTouchIsFirst(evs: seq<Event>, to: int)
    ensures FirstTouch(evs, to) <= |evs|
    ensures FirstTouch(evs, to) < |evs| ==> evs[FirstTouch(evs, to)].to == to
    ensures forall i :: 0 <= i < FirstTouch(evs, to) ==> evs[i].to != to
    ensures FirstTouch(evs, to) < |evs| <==> Targets(evs, to)
  {
    if evs != [] {
      var init := evs[..|evs| - 1];
      FirstTouchIsFirst(init, to);
      assert evs == init + [evs[|evs| - 1]];
    }
  }

  lemma FirstTouchAppend(evs: seq<Event>, ev: Event)
    ensures forall to: int :: FirstTouch(evs + [ev], to) ==
              if FirstTouch(evs, to) < |evs| then FirstTouch(evs, to) else if ev.to == to then |evs| else |evs| + 1
  {
    assert (evs + [ev])[..|evs|] == evs;
  }

  /** The targets in the order in which the events first named them. */
  ghost predicate InTouchOrder(evs: seq<Event>, targets: seq<nat>) {
    forall i, j :: 0 <= i < j < |targets| ==> FirstTouch(evs, targets[i]) < FirstTouch(evs, targets[j])
  }

  lemma TouchOrderKept(evs: seq<Event>, ev: Event, targets: seq<nat>)
    requires InTouchOrder(evs, targets) && forall to :: to in targets ==> Targets(evs, to)
    ensures InTouchOrder(evs + [ev], targets)
    ensures !Targets(evs, ev.to) && ev.to >= 0 ==> InTouchOrder(evs + [ev], targets + [ev.to])
  {
    hide FirstTouch;
    FirstTouchAppend(evs, ev);
    forall to: int
      ensures FirstTouch(evs, to) < |evs| <==> Targets(evs, to)
      ensures FirstTouch(evs, to) <= |evs|
    {
      FirstTouchIsFirst(evs, to);
    }
  }

  lemma TargetsGrow(evs: seq<Event>, ev: Event)
    ensures forall to: int :: Targets(evs + [ev], to) <==> Targets(evs, to) || ev.to == to
  {
    forall to: int
      ensures Targets(evs + [ev], to) <==> Targets(evs, to) || ev.to == to
    {
      if e :| e in evs && e.to == to {
        assert e in evs + [ev];
      }
      assert ev in evs + [ev];
    }
  }

  /** Insertions in the order of a drain: target by target in the order in which the events first named
      them, and for one target by ascending source. */
  ghost predicate InDrainOrder(evs: seq<Event>, steps: seq<Insertion>) {
    forall i, j :: 0 <= i < j < |steps| ==>
      var e, f := steps[i].edge, steps[j].edge;
      FirstTouch(evs, e.1) < FirstTouch(evs, f.1) || (e.1 == f.1 && e.0 < f.0)
  }

  /** All these insertions are new, and their targets are among `targets`. */
  ghost predicate NewFor(sites: Sites, steps: seq<Insertion>, targets: seq<nat>) {
    forall k :: 0 <= k < |steps| ==> steps[k].edge !in sites && steps[k].edge.1 in targets
  }

  /** One more target's insertions come after those of the targets before it. */
  lemma DrainOrderJoin(evs: seq<Event>, sites: Sites, steps: seq<Insertion>, targets: seq<nat>, more: seq<Insertion>,
                       to: nat)
    requires InDrainOrder(evs, steps) && NewFor(sites, steps, targets)
    requires InTouchOrder(evs, targets + [to]) && ForOneTarget(more, to) && NewFor(sites, more, [to])
    ensures InDrainOrder(evs, steps + more) && NewFor(sites, steps + more, targets + [to])
  {
    hide FirstTouch;
    var all := steps + more;
    forall i, j | 0 <= i < j < |all|
      ensures var e, f := all[i].edge, all[j].edge;
              FirstTouch(evs, e.1) < FirstTouch(evs, f.1) || (e.1 == f.1 && e.0 < f.0)
    {
      if i < |steps| <= j {
        var k :| 0 <= k < |targets| && targets[k] == steps[i].edge.1;
        assert (targets + [to])[k] == targets[k] && (targets + [to])[|targets|] == to;
      }
    }
  }

  lemma TouchOrderPrefix(evs: seq<Event>, targets: seq<nat>, n: nat)
    requires InTouchOrder(evs, targets) && n <= |targets|
    ensures InTouchOrder(evs, targets[..n])
  {
  }

  predicate Carries(ev: Event, from: nat, to: nat) {
    ev.to == to && HasSlot(ev.fromBits, from)
  }

  /** The first event, in dequeue order, that carries the pair. */
  ghost function FirstCarrier(evs: seq<Event>, from: nat, to: nat): Option<Event> {
    if evs == [] then None
    else
      var earlier := FirstCarrier(evs[..|evs| - 1], from, to);
      if earlier.Some? then earlier
      else if Carries(evs[|evs| - 1], from, to) then Some(evs[|evs| - 1])
      else None
  }

  /** Inserting one event on its own. Events whose target lies outside the table are ignored. */
  ghost function ApplyEvent(sites: Sites, ev: Event, slots: nat, maxSlots: nat, withSites: bool): Sites {
    if 0 <= ev.to < maxSlots then
      map e | e in sites.Keys + EdgesInto(SlotsOf(ev.fromBits), ev.to, slots) ::
        if e in sites then sites[e] else if withSites then InfoOf(ev) else UNKNOWN_EDGE_INFO
    else
      sites
  }

  /** Inserting the events one at a time, in dequeue order. */
  ghost function ApplyAll(sites: Sites, evs: seq<Event>, slots: nat, maxSlots: nat, withSites: bool): Sites {
    if evs == [] then sites
    else
      ApplyEvent(ApplyAll(sites, evs[..|evs| - 1], slots, maxSlots, withSites), evs[|evs| - 1], slots, maxSlots,
          withSites)
  }

  ghost predicate IsCarried(evs: seq<Event>, e: Edge, slots: nat, maxSlots: nat) {
    e.0 != e.1 && e.0 < slots && e.1 < maxSlots && FirstCarrier(evs, e.0, e.1).Some?
  }

  /** One at a time, the graph gains exactly the carried pairs, each with its first carrier's site. */
  lemma {:induction false} ApplyAllIsFirstCarrier(sites: Sites, evs: seq<Event>, slots: nat, maxSlots: nat,
                                                  withSites: bool, e: Edge)
    ensures var after := ApplyAll(sites, evs, slots, maxSlots, withSites);
            && (e in after <==> e in sites || IsCarried(evs, e, slots, maxSlots))
            && (e in sites ==> after[e] == sites[e])
            && (e in after && e !in sites ==>
                  after[e] == if withSites then InfoOf(FirstCarrier(evs, e.0, e.1).value) else UNKNOWN_EDGE_INFO)
  {
    if evs != [] {
      var init, last := evs[..|evs| - 1], evs[|evs| - 1];
      ApplyAllIsFirstCarrier(sites, init, slots, maxSlots, withSites, e);
      assert e.0 in SlotsOf(last.fromBits) <==> HasSlot(last.fromBits, e.0);
    }
  }

  /** All queued events in dequeue order: ring by ring. */
  ghost function Queued(rings: seq<seq<Event>>): seq<Event> {
    if rings == [] then [] else Queued(rings[..|rings| - 1]) + rings[|rings| - 1]
  }

  /** The site the pending table holds: the first carrier's, unless that carrier had no call site;
      then whatever an earlier drain left there. */
  ghost function PendingSite(evs: seq<Event>, from: nat, to: nat, stale: EdgeInfo): EdgeInfo {
    match FirstCarrier(evs, from, to)
    case Some(ev) => if ev.acquirePc != 0 then InfoOf(ev) else stale
    case None => stale
  }

  /** What a report prints of a site: without a call site it prints neither site nor thread. */
  function Shown(site: EdgeInfo): Option<EdgeInfo> {
    if site.acquirePc == 0 then None else Some(site)
  }

  /** When the pending site of a pair is its first carrier's, and when it at least prints the same. */
  lemma SiteIsCarriersIff(evs: seq<Event>, from: nat, to: nat, stale: EdgeInfo)
    requires FirstCarrier(evs, from, to).Some?
    ensures var ev := FirstCarrier(evs, from, to).value;
            && (PendingSite(evs, from, to, stale) == InfoOf(ev) <==> ev.acquirePc != 0 || stale == InfoOf(ev))
            && (Shown(PendingSite(evs, from, to, stale)) == Shown(InfoOf(ev)) <==>
                ev.acquirePc != 0 || stale.acquirePc == 0)
  {
  }

  /** The two ways the source can be compiled: every event has a call site, or none has and the pending
      table never gets one. */
  ghost predicate OneRegime(evs: seq<Event>, table: map<Edge, EdgeInfo>) {
    || (forall ev :: ev in evs ==> ev.acquirePc != 0)
    || ((forall ev :: ev in evs ==> ev.acquirePc == 0) && forall e :: e in table ==> table[e].acquirePc == 0)
  }

  /** A site table, indexed [to, from], as a map from (from, to). */
  ghost function TableOf(info: array2<EdgeInfo>): (table: map<Edge, EdgeInfo>)
    ensures forall f: nat, to: nat :: f < info.Length1 && to < info.Length0 ==>
              (f, to) in table && table[(f, to)] == info[to, f]
    reads info
  {
    map f: nat, to: nat | f < info.Length1 && to < info.Length0 :: (f, to) := info[to, f]
  }

  lemma ZeroTable(info: array2<EdgeInfo>)
    requires forall to: nat, f: nat :: to < info.Length0 && f < info.Length1 ==> info[to, f].acquirePc == 0
    ensures OneRegime([], TableOf(info)) && forall e :: e in TableOf(info) ==> TableOf(info)[e].acquirePc == 0
  {
  }

  /** The bookkeeping of one drain: merged source bits per target, the list of touched targets, and
      the table of pending sites, which outlives the drain. */
  class PendingTable {
    const maxSlots: nat
    const bits: array2<Word>
    const touched: array<bool>
    const toLocks: array<nat>
    const info: array2<EdgeInfo>
    var count: nat

    /** What the site table held when this drain began, by (from, to). */
    ghost const stale: map<Edge, EdgeInfo>

    ghost predicate Shaped()
      reads this
    {
      && bits.Length0 == touched.Length == toLocks.Length == maxSlots && bits.Length1 == WordCount(maxSlots)
      && info.Length0 == info.Length1 == maxSlots
      && count <= maxSlots
      && forall f: nat, to: nat :: f < maxSlots && to < maxSlots ==> (f, to) in stale
    }

    /** The touched targets are listed once each; the list cannot overflow. */
    ghost predicate Lists(evs: seq<Event>)
      requires Shaped()
      reads this, touched, toLocks
    {
      && Distinct(toLocks[..count])
      && InTouchOrder(evs, toLocks[..count])
      && (forall to :: to in toLocks[..count] ==> to < maxSlots && Targets(evs, to))
      && (forall to: nat :: to < maxSlots ==> (touched[to] <==> to in toLocks[..count]))
      && (forall to: nat :: to < maxSlots && Targets(evs, to) ==> touched[to])
      && (forall f: nat, to: nat :: to < maxSlots && FirstCarrier(evs, f, to).Some? ==> touched[to])
    }

    ghost predicate Merges(evs: seq<Event>)
      requires Shaped()
      reads this, bits
    {
      forall f: nat, to: nat :: to < maxSlots && f / 64 < bits.Length1 ==>
        (TestBit(bits, to, f) <==> FirstCarrier(evs, f, to).Some?)
    }

    ghost predicate Attributes(evs: seq<Event>)
      requires Shaped()
      reads this, info
    {
      forall f: nat, to: nat :: f < maxSlots && to < maxSlots ==>
        info[to, f] == PendingSite(evs, f, to, stale[(f, to)])
    }

    /** The table describes the events dequeued so far. */
    ghost predicate Holds(evs: seq<Event>)
      reads this, bits, touched, toLocks, info
    {
      Shaped() && Lists(evs) && Merges(evs) && Attributes(evs)
    }

    constructor (maxSlots: nat, info: array2<EdgeInfo>)
      requires info.Length0 == info.Length1 == maxSlots
      ensures Holds([]) && this.maxSlots == maxSlots && this.info == info
      ensures fresh(bits) && fresh(touched) && fresh(toLocks)
      ensures forall f: nat, to: nat :: f < maxSlots && to < maxSlots ==> stale[(f, to)] == info[to, f]
      ensures stale == TableOf(info)
    {
      this.maxSlots := maxSlots;
      this.info := info;
      bits := new Word[maxSlots, WordCount(maxSlots)]((_, _) => 0);
      touched := new bool[maxSlots](_ => false);
      toLocks := new nat[maxSlots](_ => 0);
      count := 0;
      stale := TableOf(info);
      new;
      hide Words.Bit, FirstCarrier, TableOf;
      EmptyMirrors(bits);
      NothingCarried();
    }

    /** The first step for an event: its target joins the list once. */
    method Touch(ev: Event, ghost evs: seq<Event>)
      requires Shaped() && Lists(evs) && 0 <= ev.to < maxSlots
      modifies `count, touched, toLocks
      ensures Shaped() && Lists(evs + [ev])
    {
      hide FirstCarrier, FirstTouch, Targets, InTouchOrder;
      FirstCarrierAppend(evs, ev);
      TargetsGrow(evs, ev);
      TouchOrderKept(evs, ev, toLocks[..count]);
      if !touched[ev.to] {
        touched[ev.to] := true;
        DistinctFits(toLocks[..count] + [ev.to], maxSlots);
        toLocks[count] := ev.to;
        count := count + 1;
        assert toLocks[..count] == old(toLocks[..count]) + [ev.to];
      }
    }

    /** The inner loop of one event word: sites of the sources not pending before. */
    method NoteSites(to: nat, word: nat, newBits: Word, site: EdgeInfo)
      requires Shaped() && to < maxSlots && word < WordCount(maxSlots)
      modifies info
      ensures forall f: nat, t: nat :: f < maxSlots && t < maxSlots ==>
                info[t, f] == if t == to && f / 64 == word && Bit(newBits, f % 64) then site else old(info[t, f])
    {
      hide Words.Bit;
      var rest := newBits;
      while rest != 0
        invariant forall k: nat :: Bit(rest, k) ==> Bit(newBits, k)
        invariant forall f: nat, t: nat :: f < maxSlots && t < maxSlots ==>
                    info[t, f] == if t == to && f / 64 == word && Bit(newBits, f % 64) && !Bit(rest, f % 64) then site
                                  else old(info[t, f])
        decreases rest
      {
        forall k: nat { ClearLowest(rest, k); }
        WordBitsAreBelow64(rest, Ctz(rest));
        var from := word * 64 + Ctz(rest);
        if from < maxSlots {
          info[to, from] := site;
        }
        rest := DropLowestWord(rest);
      }
      forall k: nat { ZeroHasNoBits(k); }
    }

    /** One word of an event: first the sites of its new sources, then its bits. */
    method FoldWord(ev: Event, word: nat)
      requires Shaped() && 0 <= ev.to < maxSlots && word < WordCount(maxSlots) == |ev.fromBits|
      modifies bits, info
      ensures forall f: nat, t: nat :: t < maxSlots && f / 64 < bits.Length1 ==>
                (TestBit(bits, t, f) <==> old(TestBit(bits, t, f)) || (f / 64 == word && Carries(ev, f, t)))
      ensures forall f: nat, t: nat :: f < maxSlots && t < maxSlots ==>
                info[t, f] == if f / 64 == word && Carries(ev, f, t) && !old(TestBit(bits, t, f)) && ev.acquirePc != 0
                              then InfoOf(ev) else old(info[t, f])
    {
      hide Words.Bit;
      var newBits := 0;
      if ev.acquirePc != 0 {
        newBits := AndNotWord(ev.fromBits[word], bits[ev.to, word]);
      } else {
        forall k: nat { ZeroHasNoBits(k); }
      }
      NoteSites(ev.to, word, newBits, InfoOf(ev));
      bits[ev.to, word] := OrWord(bits[ev.to, word], ev.fromBits[word]);
    }

    /** Folding one event. */
    method Fold(ev: Event, ghost evs: seq<Event>)
      requires Holds(evs) && 0 <= ev.to < maxSlots && |ev.fromBits| == WordCount(maxSlots)
      modifies `count, bits, touched, toLocks, info
      ensures Holds(evs + [ev])
    {
      hide Words.Bit, FirstCarrier, Carries;
      FirstCarrierAppend(evs, ev);
      Touch(ev, evs);
      for word := 0 to WordCount(maxSlots)
        modifies bits, info
        invariant forall f: nat, t: nat :: t < maxSlots && f / 64 < bits.Length1 ==>
                    (TestBit(bits, t, f) <==> FirstCarrier(Seen(evs, ev, word, f), f, t).Some?)
        invariant forall f: nat, t: nat :: f < maxSlots && t < maxSlots ==>
                    info[t, f] == PendingSite(Seen(evs, ev, word, f), f, t, stale[(f, t)])
      {
        FoldWord(ev, word);
      }
    }

    /** What the two halves of a drain rely on: carried pairs have listed targets and a place in the
        site table. */
    lemma CarriedAreListed(evs: seq<Event>, slots: nat)
      requires Holds(evs) && slots <= maxSlots
      ensures forall e :: IsCarried(evs, e, slots, maxSlots) ==> e.1 in toLocks[..count] && e in stale
    {
      hide FirstCarrier, Merges, Attributes;
    }

    /** An event whose target lies outside the table changes nothing. */
    lemma Ignore(ev: Event, evs: seq<Event>)
      requires Holds(evs) && !(0 <= ev.to < maxSlots)
      ensures Holds(evs + [ev])
    {
      hide Words.Bit, FirstCarrier, FirstTouch, Targets, InTouchOrder;
      TargetsGrow(evs, ev);
      TouchOrderKept(evs, ev, toLocks[..count]);
      IgnoredEvent(evs, ev, maxSlots);
    }
  }

  /** The events already folded into the word of source `f` when `word` words of `ev` are done. */
  ghost function Seen(evs: seq<Event>, ev: Event, word: nat, f: nat): seq<Event> {
    if f / 64 < word then evs + [ev] else evs
  }

  lemma NothingCarried()
    ensures forall f: nat, to: nat :: FirstCarrier([], f, to) == None
  {
  }

  lemma FirstCarrierAppend(evs: seq<Event>, ev: Event)
    ensures forall f: nat, to: nat :: FirstCarrier(evs + [ev], f, to) ==
              if FirstCarrier(evs, f, to).Some? then FirstCarrier(evs, f, to)
              else if Carries(ev, f, to) then Some(ev) else None
  {
    assert (evs + [ev])[..|evs|] == evs;
  }

  lemma IgnoredEvent(evs: seq<Event>, ev: Event, maxSlots: nat)
    requires !(0 <= ev.to < maxSlots)
    ensures forall f: nat, to: nat :: to < maxSlots ==> FirstCarrier(evs + [ev], f, to) == FirstCarrier(evs, f, to)
  {
    FirstCarrierAppend(evs, ev);
  }

  /** The site a drain attributes to a pair it inserts. */
  ghost function DrainSite(evs: seq<Event>, e: Edge, withSites: bool, stale: map<Edge, EdgeInfo>): EdgeInfo {
    if withSites && e in stale then PendingSite(evs, e.0, e.1, stale[e]) else UNKNOWN_EDGE_INFO
  }

  /** The graph after inserting those of the carried pairs whose target is in `targets`. */
  ghost predicate Inserted(before: Sites, after: Sites, evs: seq<Event>, targets: seq<nat>, slots: nat, maxSlots: nat,
                           withSites: bool, stale: map<Edge, EdgeInfo>) {
    && (forall e :: e in after <==> e in before || (IsCarried(evs, e, slots, maxSlots) && e.1 in targets))
    && (forall e :: e in after ==> after[e] == if e in before then before[e] else DrainSite(evs, e, withSites, stale))
  }

  lemma InsertedNothing(sites: Sites, evs: seq<Event>, slots: nat, maxSlots: nat, withSites: bool,
                        stale: map<Edge, EdgeInfo>)
    ensures Inserted(sites, sites, evs, [], slots, maxSlots, withSites, stale)
  {
  }

  lemma InsertedTarget(before: Sites, middle: Sites, evs: seq<Event>, targets: seq<nat>, to: nat, slots: nat,
                       maxSlots: nat, withSites: bool, stale: map<Edge, EdgeInfo>, sources: set<nat>,
                       infos: Option<seq<EdgeInfo>>)
    requires Inserted(before, middle, evs, targets, slots, maxSlots, withSites, stale)
    requires to < maxSlots && slots <= maxSlots
    requires forall f: nat :: f < slots ==> (f in sources <==> FirstCarrier(evs, f, to).Some?)
    requires forall f: nat :: f < slots ==> InfoAt(infos, f) == DrainSite(evs, (f, to), withSites, stale)
    ensures Inserted(before, LearnInto(middle, sources, to, slots, infos), evs, targets + [to], slots, maxSlots,
            withSites, stale)
  {
    hide FirstCarrier, DrainSite, InfoAt;
    var after := LearnInto(middle, sources, to, slots, infos);
    forall e: Edge
      ensures e in after <==> e in before || (IsCarried(evs, e, slots, maxSlots) && e.1 in targets + [to])
    {
      assert e in EdgesInto(sources, to, slots) <==> e.0 in sources && e.1 == to && e.0 != to && e.0 < slots;
    }
  }

  /** Which pairs there are does not depend on sites. */
  lemma DrainInsertsAll(before: Sites, after: Sites, evs: seq<Event>, targets: seq<nat>, slots: nat, maxSlots: nat,
                        withSites: bool, stale: map<Edge, EdgeInfo>)
    requires Inserted(before, after, evs, targets, slots, maxSlots, withSites, stale)
    requires forall e :: IsCarried(evs, e, slots, maxSlots) ==> e.1 in targets
    ensures after.Keys == ApplyAll(before, evs, slots, maxSlots, withSites).Keys
  {
    var spec := ApplyAll(before, evs, slots, maxSlots, withSites);
    forall e: Edge
      ensures e in after <==> e in spec
    {
      ApplyAllIsFirstCarrier(before, evs, slots, maxSlots, withSites, e);
    }
  }

  lemma {:induction false} DrainEqualsOneAtATime(before: Sites, after: Sites, evs: seq<Event>, targets: seq<nat>,
                                                 slots: nat, maxSlots: nat, withSites: bool, stale: map<Edge, EdgeInfo>)
    requires Inserted(before, after, evs, targets, slots, maxSlots, withSites, stale)
    requires forall e :: IsCarried(evs, e, slots, maxSlots) ==> e.1 in targets && e in stale
    requires withSites ==> forall ev :: ev in evs ==> ev.acquirePc != 0
    ensures after == ApplyAll(before, evs, slots, maxSlots, withSites)
  {
    var spec := ApplyAll(before, evs, slots, maxSlots, withSites);
    forall e: Edge
      ensures e in after <==> e in spec
      ensures e in after ==> after[e] == spec[e]
    {
      ApplyAllIsFirstCarrier(before, evs, slots, maxSlots, withSites, e);
      FirstCarrierIsMember(evs, e.0, e.1);
    }
  }

  /** In either regime the batched drain prints what inserting event after event would print. */
  lemma DrainShowsFirstCarriers(before: Sites, after: Sites, evs: seq<Event>, targets: seq<nat>, slots: nat,
                                maxSlots: nat, withSites: bool, stale: map<Edge, EdgeInfo>)
    requires Inserted(before, after, evs, targets, slots, maxSlots, withSites, stale)
    requires forall e :: IsCarried(evs, e, slots, maxSlots) ==> e.1 in targets && e in stale
    requires withSites ==> OneRegime(evs, stale)
    ensures var spec := ApplyAll(before, evs, slots, maxSlots, withSites);
            forall e :: e in after ==> e in spec && Shown(after[e]) == Shown(spec[e])
  {
    hide Shown, PendingSite;
    forall e | e in after
      ensures var spec := ApplyAll(before, evs, slots, maxSlots, withSites);
              e in spec && Shown(after[e]) == Shown(spec[e])
    {
      ApplyAllIsFirstCarrier(before, evs, slots, maxSlots, withSites, e);
      FirstCarrierIsMember(evs, e.0, e.1);
      if e !in before && withSites {
        SiteIsCarriersIff(evs, e.0, e.1, stale[e]);
      }
    }
  }

  /** Without site reporting a drain records neither threads nor call sites, and prints none. */
  lemma DrainIsUnattributed(before: Sites, after: Sites, evs: seq<Event>, targets: seq<nat>, slots: nat,
                            maxSlots: nat, withSites: bool, stale: map<Edge, EdgeInfo>)
    requires Inserted(before, after, evs, targets, slots, maxSlots, withSites, stale)
    ensures !withSites ==> NewSitesUnattributed(before, after)
    ensures !withSites ==> forall e :: e in after && e !in before ==> Shown(after[e]).None?
  {
    hide IsCarried;
  }

  /** The three comparisons of a drain with the plain loop. */
  lemma DrainOutcome(before: Sites, after: Sites, evs: seq<Event>, targets: seq<nat>, slots: nat, maxSlots: nat,
                     withSites: bool, stale: map<Edge, EdgeInfo>)
    requires Inserted(before, after, evs, targets, slots, maxSlots, withSites, stale)
    requires forall e :: IsCarried(evs, e, slots, maxSlots) ==> e.1 in targets && e in stale
    ensures var spec := ApplyAll(before, evs, slots, maxSlots, withSites);
            && after.Keys == spec.Keys
            && ((withSites ==> forall ev :: ev in evs ==> ev.acquirePc != 0) ==> after == spec)
            && ((withSites ==> OneRegime(evs, stale)) ==>
                  forall e :: e in after ==> e in spec && Shown(after[e]) == Shown(spec[e]))
    ensures forall e :: e in after && e !in before ==>
              e in stale && after[e] == DrainSite(evs, e, withSites, stale)
  {
    hide ApplyAll, OneRegime, Shown, DrainSite;
    DrainInsertsAll(before, after, evs, targets, slots, maxSlots, withSites, stale);
    if withSites ==> forall ev :: ev in evs ==> ev.acquirePc != 0 {
      DrainEqualsOneAtATime(before, after, evs, targets, slots, maxSlots, withSites, stale);
    }
    if withSites ==> OneRegime(evs, stale) {
      DrainShowsFirstCarriers(before, after, evs, targets, slots, maxSlots, withSites, stale);
    }
  }

  lemma {:induction false} FirstCarrierIsMember(evs: seq<Event>, from: nat, to: nat)
    ensures var first := FirstCarrier(evs, from, to);
            first.Some? ==> first.value in evs && Carries(first.value, from, to)
  {
    if evs != [] {
      FirstCarrierIsMember(evs[..|evs| - 1], from, to);
    }
  }

  method RowOf<T>(m: array2<T>, row: nat) returns (r: seq<T>)
    requires row < m.Length0
    ensures |r| == m.Length1 && forall j :: 0 <= j < |r| ==> r[j] == m[row, j]
  {
    r := [];
    for j := 0 to m.Length1
      invariant |r| == j && forall k :: 0 <= k < j ==> r[k] == m[row, k]
    {
      r := r + [m[row, j]];
    }
  }

  class Worker {
    const maxSlots: nat
    const graph: WorkerGraph
    const rings: array<seq<Event>>
    const pendingInfo: array2<EdgeInfo>
    const reportSites: bool

    ghost predicate Valid()
      reads this, graph, graph.adjacency, graph.predecessors, graph.snapshot, graph.reach, graph.edgeInfo
    {
      graph.Valid() && graph.maxSlots == maxSlots && graph.edgeInfo != pendingInfo &&
      pendingInfo.Length0 == pendingInfo.Length1 == maxSlots
    }

    /** What every producer guarantees about an event it publishes: one word per 64 slots, and a
        registered target unless the target lies outside the table. */
    ghost predicate WellFormed(evs: seq<Event>)
      reads graph
    {
      forall ev :: ev in evs ==>
        |ev.fromBits| == WordCount(maxSlots) && (0 <= ev.to < maxSlots ==> ev.to < graph.slotCount)
    }

    constructor (maxSlots: nat, threadSlots: nat, reportSites: bool)
      ensures Valid() && this.maxSlots == maxSlots && this.reportSites == reportSites
      ensures rings.Length == threadSlots && graph.sites == map[]
      ensures forall t :: 0 <= t < threadSlots ==> rings[t] == []
      ensures OneRegime([], TableOf(pendingInfo))
      ensures forall e :: e in TableOf(pendingInfo) ==> TableOf(pendingInfo)[e].acquirePc == 0
      ensures forall f: nat, to: nat :: f < maxSlots && to < maxSlots ==>
                pendingInfo[to, f].threadSlot == 0 && pendingInfo[to, f].acquirePc == 0
    {
      this.maxSlots := maxSlots;
      this.reportSites := reportSites;
      graph := new WorkerGraph(maxSlots);
      rings := new seq<Event>[threadSlots](_ => []);
      pendingInfo := new EdgeInfo[maxSlots, maxSlots]((_, _) => ZERO_EDGE_INFO);
      new;
      hide TableOf, OneRegime;
      ZeroTable(pendingInfo);
    }

    /** First half of a drain: dequeue ring by ring until each is found empty. */
    method Collect(table: PendingTable) returns (progress: bool, ghost evs: seq<Event>)
      requires table.maxSlots == maxSlots && table.Holds([]) && WellFormed(Queued(rings[..]))
      modifies rings, table`count, table.bits, table.touched, table.toLocks, table.info
      ensures evs == Queued(old(rings[..])) && (progress <==> evs != [])
      ensures forall t :: 0 <= t < rings.Length ==> rings[t] == []
      ensures table.Holds(evs)
    {
      hide Words.Bit, FirstCarrier;
      progress, evs := false, [];
      for thread := 0 to rings.Length
        invariant table.Holds(evs)
        invariant evs == Queued(old(rings[..])[..thread])
        invariant progress <==> evs != []
        invariant forall t :: 0 <= t < thread ==> rings[t] == []
        invariant forall t :: thread <= t < rings.Length ==> rings[t] == old(rings[t])
      {
        ghost var before := evs;
        QueuedSplits(old(rings[..]), thread);
        while |rings[thread]| > 0
          invariant table.Holds(evs)
          invariant evs + rings[thread] == before + old(rings[thread])
          invariant progress <==> evs != []
          invariant forall t :: 0 <= t < thread ==> rings[t] == []
          invariant forall t :: thread < t < rings.Length ==> rings[t] == old(rings[t])
          decreases |rings[thread]|
        {
          var ev := rings[thread][0];
          assert evs + rings[thread] == evs + [ev] + rings[thread][1..];
          rings[thread] := rings[thread][1..];
          progress := true;
          assert ev in before + old(rings[thread]);
          if 0 <= ev.to < maxSlots {
            table.Fold(ev, evs);
          } else {
            table.Ignore(ev, evs);
          }
          evs := evs + [ev];
        }
      }
      assert old(rings[..])[..rings.Length] == old(rings[..]);
    }

    /** Second half: each touched target once, in the order of first touch. */
    method InsertPending(table: PendingTable, ghost evs: seq<Event>) returns (ghost steps: seq<Insertion>)
      requires Valid() && table.maxSlots == maxSlots && table.Holds(evs) && WellFormed(evs)
      requires table.info == pendingInfo && Separate(table)
      modifies graph`sites, graph`reports, graph.adjacency, graph.predecessors, graph.snapshot, graph.reach,
               graph.edgeInfo
      ensures Valid()
      ensures Inserted(old(graph.sites), graph.sites, evs, table.toLocks[..table.count], graph.slotCount, maxSlots,
                       reportSites, table.stale)
      ensures Performs(old(graph.reports), graph.reports, old(graph.sites), graph.sites, steps)
      ensures InDrainOrder(evs, steps) && forall k :: 0 <= k < |steps| ==> steps[k].edge !in old(graph.sites)
    {
      hide Words.Bit, FirstCarrier, Inserted, Performs, InDrainOrder, InTouchOrder, Targets, ForOneTarget;
      steps := [];
      NoSteps(evs, graph.sites);
      PerformsNothing(graph.reports, graph.sites);
      InsertedNothing(graph.sites, evs, graph.slotCount, maxSlots, reportSites, table.stale);
      for i := 0 to table.count
        invariant Valid() && table.Holds(evs)
        invariant Inserted(old(graph.sites), graph.sites, evs, table.toLocks[..i], graph.slotCount, maxSlots,
                           reportSites, table.stale)
        invariant Performs(old(graph.reports), graph.reports, old(graph.sites), graph.sites, steps)
        invariant InDrainOrder(evs, steps) && NewFor(old(graph.sites), steps, table.toLocks[..i])
        invariant old(graph.sites).Keys <= graph.sites.Keys
      {
        ghost var logged, known := graph.reports, graph.sites;
        assert table.toLocks[i] in table.toLocks[..table.count];
        ghost var more := InsertTarget(table, evs, table.toLocks[i], old(graph.sites), table.toLocks[..i]);
        PerformsBoth(old(graph.reports), logged, graph.reports, old(graph.sites), known, graph.sites, steps, more);
        assert table.toLocks[..i + 1] == table.toLocks[..i] + [table.toLocks[i]];
        assert table.toLocks[..i + 1] == table.toLocks[..table.count][..i + 1];
        TouchOrderPrefix(evs, table.toLocks[..table.count], i + 1);
        DrainOrderJoin(evs, old(graph.sites), steps, table.toLocks[..i], more, table.toLocks[i]);
        steps := steps + more;
      }
    }

    /** The drain's own bitsets are not those of the graph. */
    ghost predicate Separate(table: PendingTable) {
      table.bits !in {graph.adjacency, graph.predecessors, graph.snapshot, graph.reach}
    }

    /** One target of the second half. */
    method InsertTarget(table: PendingTable, ghost evs: seq<Event>, to: nat, ghost before: Sites,
                        ghost targets: seq<nat>)
      returns (ghost steps: seq<Insertion>)
      requires Valid() && table.maxSlots == maxSlots && table.Holds(evs) && WellFormed(evs)
      requires table.info == pendingInfo && to < maxSlots && Targets(evs, to)
      requires Inserted(before, graph.sites, evs, targets, graph.slotCount, maxSlots, reportSites, table.stale)
      modifies graph`sites, graph`reports, graph.adjacency, graph.predecessors, graph.snapshot, graph.reach,
               graph.edgeInfo
      ensures Valid()
      ensures Inserted(before, graph.sites, evs, targets + [to], graph.slotCount, maxSlots, reportSites, table.stale)
      ensures Performs(old(graph.reports), graph.reports, old(graph.sites), graph.sites, steps)
      ensures ForOneTarget(steps, to) && NewFor(old(graph.sites), steps, [to])
      ensures old(graph.sites).Keys <= graph.sites.Keys
    {
      hide Words.Bit, FirstCarrier, Inserted, Performs, RecordsSources, ForOneTarget;
      ghost var logged, known := graph.reports, graph.sites;
      var row := RowOf(table.bits, to);
      var infos: Option<seq<EdgeInfo>> := None;
      if reportSites {
        var sitesRow := RowOf(table.info, to);
        infos := Some(sitesRow);
      }
      forall f: nat | f < graph.slotCount
        ensures f in SlotsOf(row) <==> FirstCarrier(evs, f, to).Some?
        ensures InfoAt(infos, f) == DrainSite(evs, (f, to), reportSites, table.stale)
      {
        assert TestBit(table.bits, to, f) <==> FirstCarrier(evs, f, to).Some?;
      }
      InsertedTarget(before, graph.sites, evs, targets, to, graph.slotCount, maxSlots, reportSites, table.stale,
                     SlotsOf(row), infos);
      ghost var visited := graph.ProcessEdgeBits(to, row, infos);
      SourcesPerformed(logged, graph.reports, known, graph.sites, visited, to, graph.slotCount, infos);
      steps := SourceSteps(visited, to, graph.slotCount, infos);
      SourceStepsAscend(visited, to, graph.slotCount, infos);
      SourcesAreNew(known, SlotsOf(row), visited, to, graph.slotCount, infos, steps);
    }

    /** lockdep_rb_drain_once. The outcome is that of inserting the queued events one at a time; a
        new pair gets the site of the first event that carried it, if that has a call site, and what
        is printed is the same in any case in which the source can find itself. `steps` lists the
        insertions in the order in which they were made, which is that of first touch and then of
        ascending source; earlier reports survive, and there is one more
        for each of them that closed a cycle. */
    method DrainOnce() returns (progress: bool, ghost steps: seq<Insertion>)
      requires Valid() && WellFormed(Queued(rings[..]))
      modifies rings, pendingInfo, graph`sites, graph`reports, graph.adjacency, graph.predecessors, graph.snapshot,
               graph.reach, graph.edgeInfo
      ensures Valid()
      ensures progress <==> Queued(old(rings[..])) != []
      ensures Performs(old(graph.reports), graph.reports, old(graph.sites), graph.sites, steps)
      ensures InDrainOrder(Queued(old(rings[..])), steps)
      ensures forall k :: 0 <= k < |steps| ==> steps[k].edge !in old(graph.sites)
      ensures ReportsAreSited(old(graph.reports), graph.reports, old(graph.sites), graph.sites)
      ensures !reportSites ==>
                && NewSitesUnattributed(old(graph.sites), graph.sites)
                && NewReportsUnattributed(old(graph.reports), graph.reports)
                && forall e :: e in graph.sites && e !in old(graph.sites) ==> Shown(graph.sites[e]).None?
      ensures old(graph.reports) <= graph.reports
      ensures |graph.reports| == |old(graph.reports)| + ReportsFor(old(graph.sites).Keys, EdgesOf(steps))
      ensures forall t :: 0 <= t < rings.Length ==> rings[t] == []
      ensures graph.sites.Keys == ApplyAll(old(graph.sites), Queued(old(rings[..])), graph.slotCount, maxSlots,
              reportSites).Keys
      ensures var evs := Queued(old(rings[..]));
              (reportSites ==> forall ev :: ev in evs ==> ev.acquirePc != 0) ==>
                graph.sites == ApplyAll(old(graph.sites), evs, graph.slotCount, maxSlots, reportSites)
      ensures var evs := Queued(old(rings[..]));
              forall e :: e in graph.sites && e !in old(graph.sites) ==>
                e.0 < maxSlots && e.1 < maxSlots &&
                graph.sites[e] == if reportSites then PendingSite(evs, e.0, e.1, old(pendingInfo[e.1, e.0]))
                                  else UNKNOWN_EDGE_INFO
      ensures var evs := Queued(old(rings[..]));
              (reportSites ==> OneRegime(evs, old(TableOf(pendingInfo)))) ==>
                forall e :: e in graph.sites ==>
                  var spec := ApplyAll(old(graph.sites), evs, graph.slotCount, maxSlots, reportSites);
                  e in spec && Shown(graph.sites[e]) == Shown(spec[e])
      ensures var evs := Queued(old(rings[..]));
              forall f: nat, to: nat :: f < maxSlots && to < maxSlots ==>
                pendingInfo[to, f] == PendingSite(evs, f, to, old(pendingInfo[to, f]))
    {
      hide Words.Bit, FirstCarrier, ApplyAll, Shown, OneRegime, PendingSite, IsCarried, Inserted,
           Performs, ReportsFor, ReportsAreSited, NewReportsUnattributed,
           InDrainOrder;
      var table := new PendingTable(maxSlots, pendingInfo);
      ghost var evs;
      progress, evs := Collect(table);
      table.CarriedAreListed(evs, graph.slotCount);
      steps := InsertPending(table, evs);
      PerformsCount(old(graph.reports), graph.reports, old(graph.sites), graph.sites, steps);
      PerformsSites(old(graph.reports), graph.reports, old(graph.sites), graph.sites, steps);
      DrainIsUnattributed(old(graph.sites), graph.sites, evs, table.toLocks[..table.count], graph.slotCount, maxSlots,
                          reportSites, table.stale);
      if !reportSites {
        UnattributedReports(old(graph.reports), graph.reports, old(graph.sites), graph.sites);
      }
      DrainOutcome(old(graph.sites), graph.sites, evs, table.toLocks[..table.count], graph.slotCount, maxSlots,
                   reportSites, table.stale);
    }
  }

  lemma NoSteps(evs: seq<Event>, sites: Sites)
    ensures InDrainOrder(evs, []) && NewFor(sites, [], [])
  {
  }

  lemma SourcesAreNew(sites: Sites, sources: set<nat>, visited: seq<nat>, to: nat, slotCount: nat,
                      infos: Option<seq<EdgeInfo>>, steps: seq<Insertion>)
    requires forall f: nat :: f in visited ==> f in sources && (f, to) !in sites
    requires ForOneTarget(steps, to) && forall k :: 0 <= k < |steps| ==> steps[k].edge.0 in visited
    ensures NewFor(sites, steps, [to])
    ensures sites.Keys <= LearnInto(sites, sources, to, slotCount, infos).Keys
  {
    forall k | 0 <= k < |steps|
      ensures steps[k].edge !in sites && steps[k].edge.1 in [to]
    {
      assert steps[k].edge == (steps[k].edge.0, to);
    }
  }

  lemma SourcesPerformed(before: seq<Report>, after: seq<Report>, sites: Sites, sites': Sites, visited: seq<nat>,
                         to: nat, slotCount: nat, infos: Option<seq<EdgeInfo>>)
    requires RecordsSources(before, after, sites, sites', visited, to, slotCount, infos)
    ensures Performs(before, after, sites, sites', SourceSteps(visited, to, slotCount, infos))
  {
    hide LogsSeq, LearnSeq;
    WhatIsRecorded(before, after, sites, sites', visited, to, slotCount, infos);
  }

  lemma QueuedSplits(rings: seq<seq<Event>>, t: nat)
    requires t < |rings|
    ensures Queued(rings[..t + 1]) == Queued(rings[..t]) + rings[t]
    ensures forall ev :: ev in Queued(rings[..t + 1]) ==> ev in Queued(rings)
  {
    assert rings[..t + 1][..t] == rings[..t];
    QueuedPrefix(rings, t + 1);
  }

  lemma {:induction false} QueuedPrefix(rings: seq<seq<Event>>, t: nat)
    requires t <= |rings|
    ensures forall ev :: ev in Queued(rings[..t]) ==> ev in Queued(rings)
  {
    if t < |rings| {
      QueuedPrefix(rings[..|rings| - 1], t);
      assert rings[..|rings| - 1][..t] == rings[..t];
    } else {
      assert rings[..t] == rings;
    }
  }
}
