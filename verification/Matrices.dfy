/** Bit matrices: one bitset row of 64-bit words per lock slot. */
module Matrices {
  import opened Words
  import opened Digraph

  /** lockdep_graph_bit_test on one row */
  predicate TestBit(m: array2<Word>, row: nat, slot: nat)
    requires row < m.Length0 && slot / 64 < m.Length1
    reads m
  {
    Bit(m[row, slot / 64], slot % 64)
  }

  /** The set bits of `m` are exactly the pairs of `rel`. */
  ghost predicate Mirrors(m: array2<Word>, rel: set<Edge>)
    reads m
  {
    forall r: nat, c: nat :: r < m.Length0 && c / 64 < m.Length1 ==> (TestBit(m, r, c) <==> (r, c) in rel)
  }

  ghost function Transpose(rel: set<Edge>): set<Edge> {
    set e | e in rel :: (e.1, e.0)
  }

  lemma EmptyMirrors(m: array2<Word>)
    requires forall r: nat, w: nat :: r < m.Length0 && w < m.Length1 ==> m[r, w] == 0
    ensures Mirrors(m, {})
  {
    forall k: nat { ZeroHasNoBits(k); }
  }

  lemma TransposeAdd(rel: set<Edge>, u: nat, v: nat)
    ensures Transpose(rel + {(u, v)}) == Transpose(rel) + {(v, u)}
  {
  }

  /** Bit test on a single row. */
  predicate RowBit(row: array<Word>, slot: nat)
    requires slot / 64 < row.Length
    reads row
  {
    Bit(row[slot / 64], slot % 64)
  }

  /** lockdep_graph_bit_set on one row */
  method SetBit(m: array2<Word>, row: nat, slot: nat, ghost rel: set<Edge>)
    requires row < m.Length0 && slot / 64 < m.Length1
    requires Mirrors(m, rel)
    modifies m
    ensures Mirrors(m, rel + {(row, slot)})
  {
    m[row, slot / 64] := OrWord(m[row, slot / 64], MaskWord(slot % 64));
    forall r: nat, c: nat | r < m.Length0 && c / 64 < m.Length1
      ensures TestBit(m, r, c) <==> (r, c) in rel + {(row, slot)}
    {
      assert old(TestBit(m, r, c)) <==> (r, c) in rel;
      if r == row && c / 64 == slot / 64 && c % 64 == slot % 64 {
        assert c == slot;
      }
    }
  }

  /** Two matrices of one shape that mirror the same pairs hold the same words. */
  lemma MirrorsDetermines(a: array2<Word>, b: array2<Word>, rel: set<Edge>, r: nat, w: nat)
    requires a.Length0 == b.Length0 && a.Length1 == b.Length1
    requires Mirrors(a, rel) && Mirrors(b, rel)
    requires r < a.Length0 && w < a.Length1
    ensures a[r, w] == b[r, w]
  {
    forall k: nat
      ensures Bit(a[r, w], k) <==> Bit(b[r, w], k)
    {
      if k < 64 {
        var c := 64 * w + k;
        assert c / 64 == w && c % 64 == k;
        assert TestBit(a, r, c) <==> (r, c) in rel;
        assert TestBit(b, r, c) <==> (r, c) in rel;
      } else {
        if Bit(a[r, w], k) { WordBitsAreBelow64(a[r, w], k); }
        if Bit(b[r, w], k) { WordBitsAreBelow64(b[r, w], k); }
      }
    }
    SameBitsSameWord(a[r, w], b[r, w]);
  }
}
