/** The recursive search both backends run over their adjacency matrix, and the reconstruction
    of the existing dependency chain from its parent pointers. The two C functions differ only in
    how they test an edge: a byte per pair, or a bit per pair. */
module PathSearch {
  import opened Slots
  import opened Words
  import opened Digraph
  import opened Pigeonhole
  import opened Matrices

  datatype Adjacency = Bytes(bytes: array2<bool>) | Bits(bits: array2<Word>) {
    function Storage(): object {
      match this
      case Bytes(b) => b
      case Bits(b) => b
    }

    ghost predicate Covers(slots: nat) {
      match this
      case Bytes(b) => slots <= b.Length0 && slots <= b.Length1
      case Bits(b) => slots <= b.Length0 && slots <= 64 * b.Length1
    }

    predicate Has(u: nat, v: nat)
      requires Covers(u + 1) && Covers(v + 1)
      reads Storage()
    {
      match this
      case Bytes(b) => b[u, v]
      case Bits(b) => TestBit(b, u, v)
    }

    ghost predicate Stores(edges: set<Edge>, slots: nat)
      reads Storage()
    {
      Covers(slots) &&
      forall u: nat, v: nat :: u < slots && v < slots ==> (Has(u, v) <==> (u, v) in edges)
    }
  }

  method StoreByte(m: array2<bool>, from: nat, to: nat, ghost edges: set<Edge>)
    requires m.Length0 == m.Length1 && from < m.Length0 && to < m.Length0
    requires Bytes(m).Stores(edges, m.Length0)
    modifies m
    ensures Bytes(m).Stores(edges + {(from, to)}, m.Length0)
  {
    m[from, to] := true;
    forall u: nat, v: nat | u < m.Length0 && v < m.Length0
      ensures Bytes(m).Has(u, v) <==> (u, v) in edges + {(from, to)}
    {
      assert old(Bytes(m).Has(u, v)) <==> (u, v) in edges;
    }
  }

  /** Following `parent` from the end of `path` walks it back to its first node. */
  ghost predicate Links(parent: seq<int>, path: seq<nat>) {
    (forall i :: 0 <= i < |path| ==> path[i] < |parent|) &&
    forall i :: 1 <= i < |path| ==> parent[path[i]] == path[i - 1]
  }

  ghost predicate ChainBetween(edges: set<Edge>, u: nat, v: nat, path: seq<nat>) {
    IsPath(edges, path) && Distinct(path) && path[0] == u && path[|path| - 1] == v
  }

  /** The slots the search may still enter; each level of recursion enters one. */
  ghost function Unvisited(visited: seq<bool>): set<nat> {
    set i: nat | i < |visited| && !visited[i]
  }

  lemma PrependNode(edges: set<Edge>, u: nat, v: nat, w: nat, path: seq<nat>)
    requires ChainBetween(edges, v, w, path) && (u, v) in edges && u !in path
    ensures ChainBetween(edges, u, w, [u] + path)
  {
    var longer := [u] + path;
    forall i | 0 <= i < |longer| - 1
      ensures (longer[i], longer[i + 1]) in edges
    {
      if i > 0 {
        assert (longer[i], longer[i + 1]) == (path[i - 1], path[i]);
        assert (path[i - 1], path[i - 1 + 1]) in edges;
      }
    }
  }

  lemma PrependLink(parent: seq<int>, u: nat, path: seq<nat>)
    requires Links(parent, path) && |path| > 0 && u < |parent| && parent[path[0]] == u
    ensures Links(parent, [u] + path)
  {
    var longer := [u] + path;
    forall i | 1 <= i < |longer|
      ensures parent[longer[i]] == longer[i - 1]
    {
      if i > 1 {
        assert parent[path[i - 1]] == path[i - 2];
      }
    }
  }

  /** lockdep_find_path_locked and lockdep_rb_find_path. `visited` is shared by the whole search:
      a slot rejected once is never entered again, and the answer is still exact because the set
      of slots that were rejected is closed under outgoing edges. */
  method FindPath(adj: Adjacency, ghost edges: set<Edge>, slotCount: nat, cur: nat, target: nat,
                  visited: array<bool>, parent: array<int>)
    returns (found: bool, ghost path: seq<nat>)
    requires adj.Stores(edges, slotCount) && Within(edges, slotCount)
    requires cur < slotCount && target < slotCount <= visited.Length == parent.Length
    requires !visited[cur]
    modifies visited, parent
    ensures forall x :: 0 <= x < visited.Length && old(visited[x]) ==> visited[x]
    ensures forall x :: 0 <= x < visited.Length && (old(visited[x]) || x == cur) ==> parent[x] == old(parent[x])
    ensures found ==> ChainBetween(edges, cur, target, path) && Links(parent[..], path)
    ensures found ==> forall x :: x in path ==> x < visited.Length && !old(visited[x])
    ensures !found ==> visited[cur]
    ensures !found ==> forall x: nat :: x < visited.Length && visited[x] && !old(visited[x]) ==>
                         x != target && forall y: nat :: (x, y) in edges ==> visited[y]
    decreases Unvisited(visited[..])
  {
    path := [];
    if cur == target {
      assert IsPath(edges, [cur]) && Links(parent[..], [cur]);
      return true, [cur];
    }
    visited[cur] := true;
    assert Unvisited(visited[..]) < Unvisited(old(visited[..])) by {
      assert cur in Unvisited(old(visited[..]));
    }
    for next := 0 to slotCount
      invariant visited[cur]
      invariant forall x :: 0 <= x < visited.Length && old(visited[x]) ==> visited[x]
      invariant forall x :: 0 <= x < visited.Length && (old(visited[x]) || x == cur) ==> parent[x] == old(parent[x])
      invariant forall y: nat :: y < next && (cur, y) in edges ==> visited[y]
      invariant forall x: nat :: x < visited.Length && visited[x] && !old(visited[x]) && x != cur ==>
                  x != target && forall y: nat :: (x, y) in edges ==> visited[y]
    {
      if adj.Has(cur, next) && !visited[next] {
        parent[next] := cur;
        assert Unvisited(visited[..]) < Unvisited(old(visited[..])) by {
          assert cur in Unvisited(old(visited[..]));
        }
        label Descend:
        var deeper, rest := FindPath(adj, edges, slotCount, next, target, visited, parent);
        if deeper {
          PrependNode(edges, cur, next, target, rest);
          PrependLink(parent[..], cur, rest);
          return true, [cur] + rest;
        }
      }
    }
    return false, [];
  }

  lemma {:induction false} ClosedSetTraps(edges: set<Edge>, closed: set<nat>, u: nat, v: nat, p: seq<nat>)
    requires forall x, y :: x in closed && (x, y) in edges ==> y in closed
    requires u in closed && PathBetween(edges, u, v, p)
    ensures v in closed
    decreases |p|
  {
    FirstEdge(edges, u, v, p);
    if |p| > 2 {
      TailPath(edges, u, v, p);
      ClosedSetTraps(edges, closed, p[1], v, p[1..]);
    }
  }

  /** The chain-building loops: follow `parent` from `from` back to `to`, then reverse. The guard
      on the array length never cuts the walk short. */
  method ExistingChain(parent: array<int>, from: nat, to: nat, ghost edges: set<Edge>, ghost path: seq<nat>)
    returns (chain: seq<nat>)
    requires ChainBetween(edges, to, from, path) && Links(parent[..], path)
    ensures chain == path
  {
    DistinctFits(path, parent.Length);
    var maxSlots := parent.Length;
    var reverseChain := new int[maxSlots];
    var reverseLen := 0;
    var cur: int := from;
    ghost var n := |path|;
    while cur != INVALID_SLOT && reverseLen < maxSlots
      invariant 0 <= reverseLen < n
      invariant cur == path[n - 1 - reverseLen]
      invariant forall i :: 0 <= i < reverseLen ==> reverseChain[i] == path[n - 1 - i]
      invariant parent[..] == old(parent[..])
      decreases n - reverseLen
    {
      reverseChain[reverseLen] := cur;
      reverseLen := reverseLen + 1;
      if cur == to {
        break;
      }
      cur := parent[cur];
    }
    assert reverseLen == n && reverseChain[n - 1] == to;
    var existing := new int[maxSlots];
    var existingLen := 0;
    var i := reverseLen - 1;
    while i >= 0
      invariant -1 <= i < n && existingLen == n - 1 - i
      invariant forall j :: 0 <= j < n ==> reverseChain[j] == path[n - 1 - j]
      invariant forall j :: 0 <= j < existingLen ==> existing[j] == path[j]
    {
      existing[existingLen] := reverseChain[i];
      existingLen := existingLen + 1;
      i := i - 1;
    }
    chain := existing[..existingLen];
    assert chain == path;
  }

  /** The whole query a backend asks before it adds the edge `from -> to`: can `to` already reach
      `from`, and along which chain? */
  method FindExistingChain(adj: Adjacency, ghost edges: set<Edge>, slotCount: nat, maxSlots: nat,
                           from: nat, to: nat)
    returns (found: bool, chain: seq<nat>)
    requires adj.Stores(edges, slotCount) && Within(edges, slotCount)
    requires from < slotCount && to < slotCount <= maxSlots && from != to
    ensures found <==> Reaches(edges, to, from)
    ensures found ==> ChainBetween(edges, to, from, chain) && 2 <= |chain| <= maxSlots
    ensures forall i :: 0 <= i < |chain| ==> chain[i] < slotCount
    ensures !found ==> chain == []
  {
    var visited := new bool[maxSlots](_ => false);
    var parent := new int[maxSlots](_ => INVALID_SLOT);
    ghost var path;
    found, path := FindPath(adj, edges, slotCount, to, from, visited, parent);
    chain := [];
    if found {
      chain := ExistingChain(parent, from, to, edges, path);
      DistinctFits(chain, maxSlots);
      assert PathBetween(edges, to, from, chain);
      PathStaysWithin(edges, slotCount, to, from, chain);
    } else if Reaches(edges, to, from) {
      var p :| PathBetween(edges, to, from, p);
      ghost var closed := set x: nat | x < maxSlots && visited[x];
      ClosedSetTraps(edges, closed, to, from, p);
    }
  }
}
