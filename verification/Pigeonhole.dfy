/** Counting facts about finite sets of slot numbers. */
module Pigeonhole {

  ghost predicate Distinct(p: seq<nat>) {
    forall i, j :: 0 <= i < j < |p| ==> p[i] != p[j]
  }

  ghost function Below(n: nat): (s: set<nat>)
    ensures forall x: nat :: x in s <==> x < n
    ensures |s| == n
  {
    if n == 0 then {} else Below(n - 1) + {n - 1}
  }

  ghost function Elements(p: seq<nat>): set<nat> {
    set x | x in p
  }

  lemma {:induction false} SubsetIsNotLarger(a: set<nat>, b: set<nat>)
    requires a <= b
    ensures |a| <= |b|
  {
    if a != {} {
      var x :| x in a;
      SubsetIsNotLarger(a - {x}, b - {x});
    }
  }

  lemma ProperSubsetIsSmaller(a: set<nat>, b: set<nat>)
    requires a < b
    ensures |a| < |b|
  {
    var x :| x in b && x !in a;
    SubsetIsNotLarger(a, b - {x});
  }

  lemma {:induction false} DistinctCount(path: seq<nat>)
    requires Distinct(path)
    ensures |Elements(path)| == |path|
  {
    if path != [] {
      var init, last := path[..|path| - 1], path[|path| - 1];
      DistinctCount(init);
      assert path == init + [last];
      assert last !in init;
      assert Elements(path) == Elements(init) + {last};
    }
  }

  /** Pairwise different slots below `n` number at most `n`. */
  lemma DistinctFits(path: seq<nat>, n: nat)
    requires Distinct(path) && forall x :: x in path ==> x < n
    ensures |path| <= n
  {
    DistinctCount(path);
    SubsetIsNotLarger(Elements(path), Below(n));
  }
}
