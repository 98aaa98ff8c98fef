/** 64-bit words and the slot bitsets made of them.

    A word is the natural number it denotes. The C operators `|`, `& ~`, `& (x - 1)` and
    `__builtin_ctzll` are defined on those numbers, digit by digit, and characterised by what
    they do to single bits. Slot `s` of a bitset lives in word `s / 64` at bit `s % 64`. */
module Words {

  const WORD_LIMIT: nat := 0x1_0000_0000_0000_0000

  type Word = w: nat | w < WORD_LIMIT

  function Pow2(n: nat): (p: nat)
    ensures p >= 1
  {
    if n == 0 then 1 else 2 * Pow2(n - 1)
  }

  /** Is bit `k` of `x` set? */
  predicate Bit(x: nat, k: nat) {
    if k == 0 then x % 2 == 1 else Bit(x / 2, k - 1)
  }

  lemma {:induction false} Pow2Adds(m: nat, n: nat)
    ensures Pow2(m + n) == Pow2(m) * Pow2(n)
  {
    if m > 0 {
      Pow2Adds(m - 1, n);
    }
  }

  lemma LimitIsPow2()
    ensures Pow2(64) == WORD_LIMIT
  {
    assert Pow2(8) == 256;
    Pow2Adds(8, 8);
    assert Pow2(16) == 0x1_0000;
    Pow2Adds(16, 16);
    assert Pow2(32) == 0x1_0000_0000;
    Pow2Adds(32, 32);
  }

  lemma {:induction false} HighBitsAreClear(x: nat, n: nat, k: nat)
    requires x < Pow2(n) && n <= k
    ensures !Bit(x, k)
  {
    if n == 0 {
      ZeroHasNoBits(k);
    } else {
      HighBitsAreClear(x / 2, n - 1, k - 1);
    }
  }

  lemma {:induction false} ZeroHasNoBits(k: nat)
    ensures !Bit(0, k)
  {
    if k > 0 {
      ZeroHasNoBits(k - 1);
    }
  }

  /** A word is determined by its bits. */
  lemma {:induction false} SameBitsSameWord(x: nat, y: nat)
    requires forall k: nat :: Bit(x, k) <==> Bit(y, k)
    ensures x == y
    decreases x + y
  {
    assert Bit(x, 0) <==> Bit(y, 0);
    if x + y > 0 {
      forall k: nat
        ensures Bit(x / 2, k) <==> Bit(y / 2, k)
      {
        assert Bit(x, k + 1) <==> Bit(y, k + 1);
      }
      SameBitsSameWord(x / 2, y / 2);
    }
  }

  lemma {:induction false} NonZeroHasBit(x: nat) returns (k: nat)
    requires x > 0
    ensures Bit(x, k)
  {
    if x % 2 == 1 {
      k := 0;
    } else {
      var j := NonZeroHasBit(x / 2);
      k := j + 1;
    }
  }

  // ---------------------------------------------------------------- operators

  /** `x | y` */
  function Or(x: nat, y: nat): nat
    decreases x + y
  {
    if x == 0 && y == 0 then 0
    else 2 * Or(x / 2, y / 2) + (if x % 2 == 1 || y % 2 == 1 then 1 else 0)
  }

  /** `x & y` */
  function And(x: nat, y: nat): nat {
    if x == 0 then 0
    else 2 * And(x / 2, y / 2) + (if x % 2 == 1 && y % 2 == 1 then 1 else 0)
  }

  /** `x & ~y` */
  function AndNot(x: nat, y: nat): nat {
    if x == 0 then 0
    else 2 * AndNot(x / 2, y / 2) + (if x % 2 == 1 && y % 2 == 0 then 1 else 0)
  }

  /** `__builtin_ctzll(x)`: the index of the lowest set bit. */
  function Ctz(x: nat): nat
    requires x > 0
  {
    if x % 2 == 1 then 0 else 1 + Ctz(x / 2)
  }

  lemma {:induction false} BitOr(x: nat, y: nat, k: nat)
    ensures Bit(Or(x, y), k) <==> Bit(x, k) || Bit(y, k)
    decreases k
  {
    if k > 0 {
      assert Or(x, y) / 2 == Or(x / 2, y / 2);
      BitOr(x / 2, y / 2, k - 1);
    }
  }

  lemma {:induction false} BitAnd(x: nat, y: nat, k: nat)
    ensures Bit(And(x, y), k) <==> Bit(x, k) && Bit(y, k)
    decreases k
  {
    if x == 0 {
      ZeroHasNoBits(k);
    } else if k > 0 {
      assert And(x, y) / 2 == And(x / 2, y / 2);
      BitAnd(x / 2, y / 2, k - 1);
    }
  }

  lemma {:induction false} BitAndNot(x: nat, y: nat, k: nat)
    ensures Bit(AndNot(x, y), k) <==> Bit(x, k) && !Bit(y, k)
    decreases k
  {
    if x == 0 {
      ZeroHasNoBits(k);
    } else if k > 0 {
      assert AndNot(x, y) / 2 == AndNot(x / 2, y / 2);
      BitAndNot(x / 2, y / 2, k - 1);
    }
  }

  lemma {:induction false} BitMask(n: nat, k: nat)
    ensures Bit(Pow2(n), k) <==> k == n
  {
    if n == 0 {
      if k > 0 { ZeroHasNoBits(k - 1); }
    } else if k > 0 {
      BitMask(n - 1, k - 1);
    }
  }

  /** The loop step `bits &= bits - 1` clears exactly the bit that `__builtin_ctzll` names,
      and that bit is the lowest one set. */
  lemma {:induction false} ClearLowest(x: nat, k: nat)
    requires x > 0
    ensures Bit(x, Ctz(x))
    ensures Bit(x, k) ==> Ctz(x) <= k
    ensures Bit(And(x, x - 1), k) <==> Bit(x, k) && k != Ctz(x)
    decreases x
  {
    if x % 2 == 1 {
      BitAnd(x, x - 1, k);
      if k > 0 {
        assert x / 2 == (x - 1) / 2;
      }
    } else {
      assert (x - 1) / 2 == x / 2 - 1;
      assert And(x, x - 1) / 2 == And(x / 2, x / 2 - 1);
      ClearLowest(x / 2, if k > 0 then k - 1 else 0);
    }
  }

  lemma {:induction false} OrBound(x: nat, y: nat, n: nat)
    requires x < Pow2(n) && y < Pow2(n)
    ensures Or(x, y) < Pow2(n)
    decreases n
  {
    if n > 0 {
      OrBound(x / 2, y / 2, n - 1);
    }
  }

  lemma {:induction false} AndBound(x: nat, y: nat)
    ensures And(x, y) <= x && AndNot(x, y) <= x
    decreases x
  {
    if x > 0 {
      AndBound(x / 2, y / 2);
    }
  }

  lemma {:induction false} Pow2Grows(m: nat, n: nat)
    requires m < n
    ensures Pow2(m) < Pow2(n)
    decreases n
  {
    if m + 1 < n {
      Pow2Grows(m, n - 1);
    }
  }

  // ------------------------------------------------- the same operators on words

  function OrWord(x: Word, y: Word): (r: Word)
    ensures forall k: nat :: Bit(r, k) <==> Bit(x, k) || Bit(y, k)
  {
    LimitIsPow2();
    OrBound(x, y, 64);
    assert forall k: nat :: Bit(Or(x, y), k) <==> Bit(x, k) || Bit(y, k) by {
      forall k: nat { BitOr(x, y, k); }
    }
    Or(x, y)
  }

  function AndNotWord(x: Word, y: Word): (r: Word)
    ensures forall k: nat :: Bit(r, k) <==> Bit(x, k) && !Bit(y, k)
  {
    AndBound(x, y);
    assert forall k: nat :: Bit(AndNot(x, y), k) <==> Bit(x, k) && !Bit(y, k) by {
      forall k: nat { BitAndNot(x, y, k); }
    }
    AndNot(x, y)
  }

  /** `1ULL << k` */
  function MaskWord(k: nat): (r: Word)
    requires k < 64
    ensures forall j: nat :: Bit(r, j) <==> j == k
  {
    LimitIsPow2();
    Pow2Grows(k, 64);
    assert forall j: nat :: Bit(Pow2(k), j) <==> j == k by {
      forall j: nat { BitMask(k, j); }
    }
    Pow2(k)
  }

  /** `x & (x - 1)` */
  function DropLowestWord(x: Word): (r: Word)
    requires x > 0
    ensures forall k: nat :: Bit(r, k) <==> Bit(x, k) && k != Ctz(x)
    ensures r < x
  {
    AndBound(x, x - 1);
    assert forall k: nat :: Bit(And(x, x - 1), k) <==> Bit(x, k) && k != Ctz(x) by {
      forall k: nat { ClearLowest(x, k); }
    }
    assert And(x, x - 1) != x by {
      ClearLowest(x, Ctz(x));
    }
    And(x, x - 1)
  }

  lemma WordBitsAreBelow64(x: Word, k: nat)
    requires Bit(x, k)
    ensures k < 64
  {
    if k >= 64 {
      LimitIsPow2();
      HighBitsAreClear(x, 64, k);
    }
  }

  // ---------------------------------------------------------------- slot sets

  /** `(N + 63) / 64` */
  function WordCount(slots: nat): (words: nat)
    ensures slots <= 64 * words < slots + 64
  {
    (slots + 63) / 64
  }

  predicate HasSlot(ws: seq<Word>, slot: nat) {
    slot / 64 < |ws| && Bit(ws[slot / 64], slot % 64)
  }

  /** The set of lock slots a bitset stands for. */
  ghost function SlotsOf(ws: seq<Word>): set<nat> {
    set slot: nat | slot < 64 * |ws| && HasSlot(ws, slot)
  }

  lemma SlotsAreInRange(ws: seq<Word>)
    ensures forall slot :: slot in SlotsOf(ws) ==> slot < 64 * |ws|
  {
  }

  /** Bitsets of equal length that stand for the same slots are equal word for word. */
  lemma SameSlotsSameWords(a: seq<Word>, b: seq<Word>)
    requires |a| == |b| && SlotsOf(a) == SlotsOf(b)
    ensures a == b
  {
    forall w | 0 <= w < |a|
      ensures a[w] == b[w]
    {
      forall k: nat
        ensures Bit(a[w], k) <==> Bit(b[w], k)
      {
        if k < 64 {
          var slot := 64 * w + k;
          assert slot / 64 == w && slot % 64 == k;
          assert slot in SlotsOf(a) <==> HasSlot(a, slot);
          assert slot in SlotsOf(b) <==> HasSlot(b, slot);
        } else {
          if Bit(a[w], k) { WordBitsAreBelow64(a[w], k); }
          if Bit(b[w], k) { WordBitsAreBelow64(b[w], k); }
        }
      }
      SameBitsSameWord(a[w], b[w]);
    }
  }

  /** lockdep_graph_has_any_bits */
  method HasAnyBits(bits: seq<Word>) returns (any: bool)
    ensures any <==> SlotsOf(bits) != {}
  {
    for word := 0 to |bits|
      invariant forall w :: 0 <= w < word ==> bits[w] == 0
    {
      if bits[word] != 0 {
        var k := NonZeroHasBit(bits[word]);
        WordBitsAreBelow64(bits[word], k);
        assert (64 * word + k) / 64 == word && (64 * word + k) % 64 == k;
        assert 64 * word + k in SlotsOf(bits);
        return true;
      }
    }
    forall slot: nat | slot < 64 * |bits|
      ensures !HasSlot(bits, slot)
    {
      ZeroHasNoBits(slot % 64);
    }
    return false;
  }
}
