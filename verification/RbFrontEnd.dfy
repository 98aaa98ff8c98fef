/** The application thread's half of the ring-buffer backend: which held locks are not yet known
    predecessors, and why handing over only those loses nothing. */
module RbFrontEnd {
  import opened Words
  import opened Digraph
  import opened Matrices
  import opened PathSearch
  import opened Reports
  import opened GlobalBackend
  import opened HeldState
  import opened RbGraph
  import opened RbDrain

  /** lockdep_rb_collect_unknown_predecessors. `loads` is what the loads of the snapshot words return; the
      worker may publish between any two of them. The result is the held locks, other than `newSlot`,
      whose bit was not loaded, and whether there are any. */
  method CollectUnknownPredecessors(state: ThreadState, loads: seq<Word>, newSlot: nat)
    returns (any: bool, unknown: seq<Word>)
    requires state.Valid() && state.rbMode && |loads| == WordCount(state.maxSlots) && newSlot < state.maxSlots
    ensures |unknown| == |loads|
    ensures SlotsOf(unknown) == set h | h in state.Held() && h != newSlot && h !in SlotsOf(loads)
    ensures any <==> exists h :: h in state.Held() && h != newSlot && h !in SlotsOf(loads)
  {
    hide Words.Bit;
    var words := new Word[|loads|](_ => 0);
    for word := 0 to words.Length
      invariant forall w :: 0 <= w < word ==> words[w] == AndNotWord(state.bits[w], loads[w])
    {
      words[word] := AndNotWord(state.bits[word], loads[word]);
    }
    words[newSlot / 64] := AndNotWord(words[newSlot / 64], MaskWord(newSlot % 64));
    unknown := words[..];
    forall h: nat
      ensures h in SlotsOf(unknown) <==> h in state.Held() && h != newSlot && h !in SlotsOf(loads)
    {
      if h / 64 < words.Length {
        assert RowBit(state.bits, h) <==> h in state.Held();
        if h / 64 == newSlot / 64 && h % 64 == newSlot % 64 { assert h == newSlot; }
      }
    }
    any := HasAnyBits(unknown);
    assert any ==> exists h :: h in SlotsOf(unknown);
  }

  /** Every bit of the loaded words stands for a pair that the graph has. As predecessor bits are only ever
      added, that holds when each word was loaded at its own moment before. */
  ghost predicate LoadedFrom(loads: seq<Word>, sites: Sites, newSlot: nat) {
    forall h :: h in SlotsOf(loads) ==> (h, newSlot) in sites
  }

  /** What one load returns: the predecessors of `newSlot` in that word's range, as recorded by then. */
  lemma SnapshotWord(graph: WorkerGraph, newSlot: nat, word: nat, k: nat)
    requires graph.Valid() && newSlot < graph.maxSlots && word < WordCount(graph.maxSlots) && k < 64
    ensures Bit(graph.snapshot[newSlot, word], k) <==> (64 * word + k, newSlot) in graph.sites
  {
    var h := 64 * word + k;
    assert h / 64 == word && h % 64 == k;
    assert TestBit(graph.snapshot, newSlot, h) <==> (newSlot, h) in Transpose(graph.sites.Keys);
  }

  /** Word `w` was loaded when the graph was `moments[w]`; since then it has only grown. */
  lemma WordsLoadedSeparately(loads: seq<Word>, newSlot: nat, moments: seq<Sites>, sites: Sites)
    requires |moments| == |loads|
    requires forall w, k: nat :: 0 <= w < |loads| && k < 64 ==>
               (Bit(loads[w], k) <==> (64 * w + k, newSlot) in moments[w])
    requires forall w :: 0 <= w < |loads| ==> moments[w].Keys <= sites.Keys
    ensures LoadedFrom(loads, sites, newSlot)
    ensures (forall w :: 0 <= w < |loads| ==> moments[w] == sites) ==>
              forall h: nat :: h < 64 * |loads| ==> (h in SlotsOf(loads) <==> (h, newSlot) in sites)
  {
    hide Words.Bit;
    forall h: nat | h < 64 * |loads|
      ensures h in SlotsOf(loads) <==> (h, newSlot) in moments[h / 64]
    {
      assert 64 * (h / 64) + h % 64 == h;
      assert Bit(loads[h / 64], h % 64) <==> (64 * (h / 64) + h % 64, newSlot) in moments[h / 64];
    }
  }

  /** lockdep_potential_on_acquire in ring-buffer mode, up to the ring: nothing without a held lock,
      nothing when every bit was loaded, else one event with the unknown predecessors. Inserting that
      event gives the graph, sites included, that the synchronous backend would have made; and where no
      event is made, there was nothing to insert. `sites` is the graph after the last load. */
  method OnAcquire(state: ThreadState, loads: seq<Word>, newSlot: nat, threadSlot: int, acquirePc: nat,
                   ghost sites: Sites, ghost slots: nat)
    returns (offer: Option<Event>)
    requires state.Valid() && state.rbMode && |loads| == WordCount(state.maxSlots)
    requires newSlot < slots <= state.maxSlots && forall h :: h in state.Held() ==> h < slots
    requires LoadedFrom(loads, sites, newSlot)
    ensures offer.Some? <==> exists h :: h in state.Held() && h != newSlot && h !in SlotsOf(loads)
    ensures var synchronous := LearnAll(sites, state.Held(), newSlot, EdgeInfo(threadSlot, acquirePc));
            if offer.Some? then ApplyEvent(sites, offer.value, slots, state.maxSlots, true) == synchronous
            else sites == synchronous
    ensures offer.Some? ==> IsOffer(offer.value, SeenPairs(loads, newSlot), state.Held(), newSlot)
  {
    LearnAllPairs(sites, state.Held(), newSlot, EdgeInfo(threadSlot, acquirePc));
    if state.count == 0 {
      return None;
    }
    var any, unknown := CollectUnknownPredecessors(state, loads, newSlot);
    if !any {
      return None;
    }
    var ev := Event(newSlot, threadSlot, acquirePc, unknown);
    OfferEqualsSynchronous(SeenPairs(loads, newSlot), sites, state.Held(), newSlot, ev, slots, state.maxSlots);
    return Some(ev);
  }

  ghost function SeenPairs(loads: seq<Word>, newSlot: nat): set<Edge> {
    set h | h in SlotsOf(loads) :: (h, newSlot)
  }

  /** The event an acquisition hands over after a snapshot that showed the pairs `seen`. */
  ghost predicate IsOffer(ev: Event, seen: set<Edge>, held: seq<nat>, newSlot: nat) {
    ev.to == newSlot && SlotsOf(ev.fromBits) == set h | h in held && h != newSlot && (h, newSlot) !in seen
  }

  lemma {:induction false} LearnAllSites(sites: Sites, held: seq<nat>, newSlot: nat, info: EdgeInfo)
    ensures forall e :: e in LearnAll(sites, held, newSlot, info) ==>
              LearnAll(sites, held, newSlot, info)[e] == if e in sites then sites[e] else info
    ensures sites.Keys <= LearnAll(sites, held, newSlot, info).Keys
  {
    if held != [] {
      LearnAllSites(sites, held[..|held| - 1], newSlot, info);
    }
  }

  /** However much the graph has grown since the snapshot was read, inserting the event has the
      effect of recording every pair of the acquisition; for registered slots the range tests of the
      worker discard nothing. */
  lemma OfferEqualsSynchronous(seen: set<Edge>, sites: Sites, held: seq<nat>, newSlot: nat, ev: Event, slots: nat,
                               maxSlots: nat)
    requires seen <= sites.Keys && IsOffer(ev, seen, held, newSlot)
    requires newSlot < slots <= maxSlots && forall h :: h in held ==> h < slots
    ensures ApplyEvent(sites, ev, slots, maxSlots, true) == LearnAll(sites, held, newSlot, InfoOf(ev))
    ensures ApplyEvent(sites, ev, slots, maxSlots, false).Keys == sites.Keys + PairsWith(held, newSlot)
  {
    hide LearnAll;
    var info := InfoOf(ev);
    LearnAllPairs(sites, held, newSlot, info);
    LearnAllSites(sites, held, newSlot, info);
    var sources := SlotsOf(ev.fromBits);
    assert sites.Keys + EdgesInto(sources, newSlot, slots) == sites.Keys + PairsWith(held, newSlot) by {
      forall e: Edge
        ensures e in sites.Keys + EdgesInto(sources, newSlot, slots) <==> e in sites.Keys + PairsWith(held, newSlot)
      {
        assert e in EdgesInto(sources, newSlot, slots) <==>
               e.0 in sources && e.0 != newSlot && e.0 < slots && e.1 == newSlot;
        assert e in PairsWith(held, newSlot) <==> e.0 in held && e.0 != newSlot && e.1 == newSlot;
      }
    }
  }

  /** The two backends' graphs over the same pairs: same matrix, same predecessor words, same verdict. */
  lemma SamePairsSameVerdict(g: GlobalGraph, w: WorkerGraph)
    requires g.Valid() && w.Valid() && g.maxSlots == w.maxSlots && g.sites.Keys == w.sites.Keys
    ensures forall u: nat, v: nat :: u < g.maxSlots && v < g.maxSlots ==>
            (g.dependency[u, v] <==> TestBit(w.adjacency, u, v))
    ensures SameWords(g.predecessors, w.predecessors)
    ensures g.reports != [] <==> w.reports != []
  {
    hide SameWords, Words.Bit;
    MirrorsSameWords(g.predecessors, w.predecessors, Transpose(g.sites.Keys));
    forall u: nat, v: nat | u < g.maxSlots && v < g.maxSlots
      ensures g.dependency[u, v] <==> TestBit(w.adjacency, u, v)
    {
      assert TestBit(w.adjacency, u, v) <==> (u, v) in w.sites.Keys;
      assert Bytes(g.dependency).Has(u, v) <==> (u, v) in g.sites.Keys;
    }
  }
}
