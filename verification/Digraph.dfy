/** The specification both potential-deadlock backends are measured against: a set of observed
    (held, new) lock pairs, and whether it contains a cycle. */
module Digraph {
  import opened Pigeonhole

  type Edge = (nat, nat)

  ghost predicate IsPath(edges: set<Edge>, p: seq<nat>) {
    |p| >= 1 && forall i :: 0 <= i < |p| - 1 ==> (p[i], p[i + 1]) in edges
  }

  /** `p` is a walk of length at least one from `u` to `v`. */
  ghost predicate PathBetween(edges: set<Edge>, u: nat, v: nat, p: seq<nat>) {
    |p| >= 2 && p[0] == u && p[|p| - 1] == v && IsPath(edges, p)
  }

  ghost predicate Reaches(edges: set<Edge>, u: nat, v: nat) {
    exists p :: PathBetween(edges, u, v, p)
  }

  ghost predicate Cyclic(edges: set<Edge>) {
    exists v :: Reaches(edges, v, v)
  }

  /** Every edge joins two different registered slots. */
  ghost predicate Within(edges: set<Edge>, slots: nat) {
    forall e :: e in edges ==> e.0 < slots && e.1 < slots && e.0 != e.1
  }

  // ---------------------------------------------------------------- walking

  lemma FirstEdge(edges: set<Edge>, u: nat, v: nat, p: seq<nat>)
    requires PathBetween(edges, u, v, p)
    ensures (u, p[1]) in edges
  {
    assert (p[0], p[0 + 1]) in edges;
  }

  lemma EdgeReaches(edges: set<Edge>, u: nat, v: nat)
    requires (u, v) in edges
    ensures Reaches(edges, u, v)
  {
    assert PathBetween(edges, u, v, [u, v]);
  }

  lemma ReachesConcat(edges: set<Edge>, u: nat, v: nat, w: nat)
    requires Reaches(edges, u, v) && Reaches(edges, v, w)
    ensures Reaches(edges, u, w)
  {
    var p :| PathBetween(edges, u, v, p);
    var q :| PathBetween(edges, v, w, q);
    var r := p + q[1..];
    forall i | 0 <= i < |r| - 1
      ensures (r[i], r[i + 1]) in edges
    {
      if i < |p| - 1 {
        assert (r[i], r[i + 1]) == (p[i], p[i + 1]);
      } else {
        assert (r[i], r[i + 1]) == (q[i - |p| + 1], q[i - |p| + 2]);
      }
    }
    assert PathBetween(edges, u, w, r);
  }

  lemma ReachesMonotone(edges: set<Edge>, more: set<Edge>, u: nat, v: nat)
    requires edges <= more && Reaches(edges, u, v)
    ensures Reaches(more, u, v)
  {
    var p :| PathBetween(edges, u, v, p);
    assert PathBetween(more, u, v, p);
  }

  lemma TailPath(edges: set<Edge>, u: nat, v: nat, p: seq<nat>)
    requires PathBetween(edges, u, v, p) && |p| > 2
    ensures (u, p[1]) in edges && PathBetween(edges, p[1], v, p[1..])
  {
    var q := p[1..];
    forall i | 0 <= i < |q| - 1
      ensures (q[i], q[i + 1]) in edges
    {
      assert (q[i], q[i + 1]) == (p[i + 1], p[i + 2]);
    }
  }

  lemma PathStaysWithin(edges: set<Edge>, slots: nat, u: nat, v: nat, p: seq<nat>)
    requires Within(edges, slots) && PathBetween(edges, u, v, p)
    ensures forall i :: 0 <= i < |p| ==> p[i] < slots
  {
    forall i | 0 <= i < |p|
      ensures p[i] < slots
    {
      if i < |p| - 1 {
        assert (p[i], p[i + 1]) in edges;
      } else {
        assert (p[i - 1], p[i - 1 + 1]) in edges;
      }
    }
  }

  // ------------------------------------------- adding one edge to a closed relation

  /** What one more edge `u -> v` makes reachable, read off the old reachability alone. */
  ghost predicate ReachesVia(edges: set<Edge>, u: nat, v: nat, s: nat, t: nat) {
    (s == u || Reaches(edges, s, u)) && (t == v || Reaches(edges, v, t))
  }

  lemma {:induction false} NewPathSplits(edges: set<Edge>, u: nat, v: nat, s: nat, t: nat, p: seq<nat>)
    requires PathBetween(edges + {(u, v)}, s, t, p)
    ensures Reaches(edges, s, t) || ReachesVia(edges, u, v, s, t)
    decreases |p|
  {
    assert (p[0], p[0 + 1]) in edges + {(u, v)};
    if |p| == 2 {
      if (s, t) in edges {
        EdgeReaches(edges, s, t);
      }
    } else {
      var x := p[1];
      TailPath(edges + {(u, v)}, s, t, p);
      NewPathSplits(edges, u, v, x, t, p[1..]);
      if (s, x) in edges {
        EdgeReaches(edges, s, x);
        if Reaches(edges, x, t) {
          ReachesConcat(edges, s, x, t);
        } else if x != u {
          ReachesConcat(edges, s, x, u);
        }
      }
    }
  }

  /** The closure-maintenance theorem. It asks nothing of `edges`: cycles may already be present. */
  lemma AddEdgeClosure(edges: set<Edge>, u: nat, v: nat, s: nat, t: nat)
    ensures Reaches(edges + {(u, v)}, s, t) <==> Reaches(edges, s, t) || ReachesVia(edges, u, v, s, t)
  {
    var more := edges + {(u, v)};
    if Reaches(more, s, t) {
      var p :| PathBetween(more, s, t, p);
      NewPathSplits(edges, u, v, s, t, p);
    }
    if Reaches(edges, s, t) {
      ReachesMonotone(edges, more, s, t);
    }
    if ReachesVia(edges, u, v, s, t) {
      EdgeReaches(more, u, v);
      if s != u {
        ReachesMonotone(edges, more, s, u);
        ReachesConcat(more, s, u, v);
      }
      if t != v {
        ReachesMonotone(edges, more, v, t);
        ReachesConcat(more, s, v, t);
      }
    }
  }

  /** The transitive closure of `edges` over the slots below `slots`. */
  ghost function Closure(edges: set<Edge>, slots: nat): set<Edge> {
    set u: nat, v: nat | u < slots && v < slots && Reaches(edges, u, v) :: (u, v)
  }

  lemma ClosureWithin(edges: set<Edge>, slots: nat)
    ensures forall e :: e in Closure(edges, slots) ==> e.0 < slots && e.1 < slots
  {
  }

  /** The update that the worker performs on its reachability rows for a new edge `u -> v`. */
  ghost function ClosureStep(closure: set<Edge>, slots: nat, u: nat, v: nat): set<Edge> {
    closure +
    set s: nat, t: nat | s < slots && t < slots &&
                         (s == u || (s, u) in closure) && (t == v || (v, t) in closure) :: (s, t)
  }

  lemma InClosureStep(closure: set<Edge>, slots: nat, u: nat, v: nat, s: nat, t: nat)
    ensures (s, t) in ClosureStep(closure, slots, u, v) <==>
            (s, t) in closure ||
            (s < slots && t < slots && (s == u || (s, u) in closure) && (t == v || (v, t) in closure))
  {
  }

  lemma ClosureStepIsExact(edges: set<Edge>, slots: nat, u: nat, v: nat)
    requires u < slots && v < slots
    ensures ClosureStep(Closure(edges, slots), slots, u, v) == Closure(edges + {(u, v)}, slots)
  {
    var before, after := Closure(edges, slots), Closure(edges + {(u, v)}, slots);
    forall s: nat, t: nat | s < slots && t < slots
      ensures (s, t) in ClosureStep(before, slots, u, v) <==> (s, t) in after
    {
      AddEdgeClosure(edges, u, v, s, t);
    }
  }

  // ---------------------------------------------------------------- cycles

  /** A new edge makes the graph cyclic exactly when it was cyclic before or its target already
      reached its source. */
  lemma AddEdgeCyclic(edges: set<Edge>, u: nat, v: nat)
    requires u != v
    ensures Cyclic(edges + {(u, v)}) <==> Cyclic(edges) || Reaches(edges, v, u)
  {
    var more := edges + {(u, v)};
    if Cyclic(more) {
      var w :| Reaches(more, w, w);
      AddEdgeClosure(edges, u, v, w, w);
      if !Reaches(edges, w, w) && w != u && w != v {
        ReachesConcat(edges, v, w, u);
      }
    }
    if Cyclic(edges) {
      var w :| Reaches(edges, w, w);
      ReachesMonotone(edges, more, w, w);
    }
    if Reaches(edges, v, u) {
      AddEdgeClosure(edges, u, v, u, u);
    }
  }

  lemma NoEdgesNoCycle()
    ensures !Cyclic({})
  {
    if Cyclic({}) {
      var v :| Reaches({}, v, v);
      var p :| PathBetween({}, v, v, p);
      FirstEdge({}, v, v, p);
    }
  }

  /** The number of distinct slots from which `v` can be reached. */
  ghost function Ancestors(edges: set<Edge>, slots: nat, v: nat): set<nat> {
    set u: nat | u < slots && Reaches(edges, u, v)
  }

  ghost function Rank(edges: set<Edge>, slots: nat, v: nat): nat {
    |Ancestors(edges, slots, v)|
  }

  /** Every edge goes from a lower to a higher rank. */
  ghost predicate Ranks(rank: nat -> nat, edges: set<Edge>) {
    forall e :: e in edges ==> rank(e.0) < rank(e.1)
  }

  /** While the graph has no cycle there is a lock ranking along which every recorded edge
      increases, and such a ranking rules out cycles. */
  lemma AcyclicIffRanked(edges: set<Edge>, slots: nat)
    requires Within(edges, slots)
    ensures !Cyclic(edges) <==>
            exists rank: nat -> nat :: Ranks(rank, edges)
  {
    if !Cyclic(edges) {
      forall e | e in edges
        ensures Rank(edges, slots, e.0) < Rank(edges, slots, e.1)
      {
        EdgeRaisesRank(edges, slots, e.0, e.1);
      }
      var rank: nat -> nat := v => Rank(edges, slots, v);
      assert Ranks(rank, edges);
    }
    if rank: nat -> nat :| Ranks(rank, edges) {
      if Cyclic(edges) {
        var v :| Reaches(edges, v, v);
        var p :| PathBetween(edges, v, v, p);
        RankGrowsAlongPath(edges, rank, v, v, p);
      }
    }
  }

  lemma EdgeRaisesRank(edges: set<Edge>, slots: nat, u: nat, v: nat)
    requires Within(edges, slots) && !Cyclic(edges) && (u, v) in edges
    ensures Rank(edges, slots, u) < Rank(edges, slots, v)
  {
    EdgeReaches(edges, u, v);
    forall w | w in Ancestors(edges, slots, u)
      ensures w in Ancestors(edges, slots, v)
    {
      ReachesConcat(edges, w, u, v);
    }
    assert u in Ancestors(edges, slots, v) && u !in Ancestors(edges, slots, u);
    ProperSubsetIsSmaller(Ancestors(edges, slots, u), Ancestors(edges, slots, v));
  }

  lemma {:induction false} RankGrowsAlongPath(edges: set<Edge>, rank: nat -> nat, u: nat, v: nat, p: seq<nat>)
    requires Ranks(rank, edges)
    requires PathBetween(edges, u, v, p)
    ensures rank(u) < rank(v)
    decreases |p|
  {
    assert (p[0], p[0 + 1]) in edges;
    if |p| > 2 {
      TailPath(edges, u, v, p);
      RankGrowsAlongPath(edges, rank, p[1], v, p[1..]);
    }
  }

  // ----------------------------------------- a whole sequence of insertions

  /** The graph after inserting a sequence of pairs; both backends ignore a pair of one slot
      with itself. */
  ghost function InsertAll(edges: set<Edge>, es: seq<Edge>): set<Edge> {
    if es == [] then edges
    else
      var e := es[|es| - 1];
      InsertAll(edges, es[..|es| - 1]) + (if e.0 == e.1 then {} else {e})
  }

  /** How many of those insertions find their edge missing and its target already reaching its
      source: the reports a backend issues. */
  ghost function ReportsFor(edges: set<Edge>, es: seq<Edge>): nat {
    if es == [] then 0
    else
      var before, e := InsertAll(edges, es[..|es| - 1]), es[|es| - 1];
      ReportsFor(edges, es[..|es| - 1]) +
      if e.0 != e.1 && e !in before && Reaches(before, e.1, e.0) then 1 else 0
  }

  /** Reports are exact over any insertion sequence: there is one exactly when the resulting
      graph is cyclic. */
  lemma {:induction false} ReportedIffCyclic(es: seq<Edge>)
    ensures ReportsFor({}, es) > 0 <==> Cyclic(InsertAll({}, es))
  {
    if es == [] {
      NoEdgesNoCycle();
    } else {
      var init, e := es[..|es| - 1], es[|es| - 1];
      var before := InsertAll({}, init);
      ReportedIffCyclic(init);
      if e.0 != e.1 && e !in before {
        AddEdgeCyclic(before, e.0, e.1);
      } else {
        assert InsertAll({}, es) == before;
      }
    }
  }

  lemma {:induction false} InsertAllContents(edges: set<Edge>, es: seq<Edge>, e: Edge)
    ensures e in InsertAll(edges, es) <==> e in edges || (e in es && e.0 != e.1)
  {
    if es != [] {
      InsertAllContents(edges, es[..|es| - 1], e);
      assert es == es[..|es| - 1] + [es[|es| - 1]];
    }
  }

  /** The verdict does not depend on the order in which edges arrive, nor on repetitions. */
  lemma VerdictIgnoresOrder(es: seq<Edge>, fs: seq<Edge>)
    requires forall e :: e in es <==> e in fs
    ensures InsertAll({}, es) == InsertAll({}, fs)
    ensures ReportsFor({}, es) > 0 <==> ReportsFor({}, fs) > 0
  {
    forall e: Edge
      ensures e in InsertAll({}, es) <==> e in InsertAll({}, fs)
    {
      InsertAllContents({}, es, e);
      InsertAllContents({}, fs, e);
    }
    assert InsertAll({}, es) == InsertAll({}, fs);
    ReportedIffCyclic(es);
    ReportedIffCyclic(fs);
  }
}
