/** The thread-local held-lock state: a stack of slots and, in ring-buffer mode, a reference count
    and a bit per slot. */
module HeldState {
  import opened Words
  import opened Matrices
  import opened HeldStack

  /** `unsigned short` */
  const REFCOUNT_LIMIT: nat := 0x1_0000

  class ThreadState {
    const maxHeld: nat
    const maxSlots: nat
    const rbMode: bool
    const slots: array<nat>
    const refcounts: array<nat>
    const bits: array<Word>
    var count: nat

    /** The held locks, oldest first. */
    ghost function Held(): seq<nat>
      requires Shaped()
      reads this, slots
    {
      slots[..count]
    }

    ghost predicate Shaped()
      reads this
    {
      && slots.Length == maxHeld && refcounts.Length == maxSlots && bits.Length == WordCount(maxSlots)
      && slots != refcounts
      && count <= maxHeld < REFCOUNT_LIMIT
    }

    /** Counts are multiplicities and bits say which counts are positive. */
    ghost predicate Tracks(held: seq<nat>)
      reads refcounts, bits
    {
      refcounts.Length == maxSlots && bits.Length == WordCount(maxSlots) &&
      (rbMode ==>
        && (forall l: nat :: l < maxSlots ==> refcounts[l] == multiset(held)[l])
        && (forall l: nat :: l / 64 < bits.Length ==> (RowBit(bits, l) <==> l in held)))
    }

    ghost predicate Valid()
      reads this, slots, refcounts, bits
    {
      Shaped() && (forall l :: l in Held() ==> l < maxSlots) && Tracks(Held())
    }

    constructor (maxHeld: nat, maxSlots: nat, rbMode: bool)
      requires maxHeld < REFCOUNT_LIMIT
      ensures Valid() && fresh(slots) && fresh(refcounts) && fresh(bits) && Held() == []
      ensures this.maxHeld == maxHeld && this.maxSlots == maxSlots && this.rbMode == rbMode
    {
      this.maxHeld, this.maxSlots, this.rbMode := maxHeld, maxSlots, rbMode;
      slots := new nat[maxHeld](_ => 0);
      refcounts := new nat[maxSlots](_ => 0);
      bits := new Word[WordCount(maxSlots)](_ => 0);
      count := 0;
      new;
      forall k: nat { ZeroHasNoBits(k); }
    }

    /** lockdep_note_thread_holds_lock_slot */
    method NoteHolds(lock: nat, ghost held: seq<nat>)
      requires Shaped() && Tracks(held) && lock < maxSlots && |held| < maxHeld
      modifies refcounts, bits
      ensures Tracks(held + [lock])
      ensures !rbMode ==> unchanged(refcounts) && unchanged(bits)
    {
      hide Words.Bit;
      if !rbMode {
        return;
      }
      CountIsBounded(held, lock);
      var before := refcounts[lock];
      refcounts[lock] := (before + 1) % REFCOUNT_LIMIT;
      if before == 0 {
        bits[lock / 64] := OrWord(bits[lock / 64], MaskWord(lock % 64));
        forall l: nat | l / 64 < bits.Length
          ensures RowBit(bits, l) <==> l in held + [lock]
        {
          assert old(RowBit(bits, l)) <==> l in held;
          if l / 64 == lock / 64 && l % 64 == lock % 64 { assert l == lock; }
        }
      } else {
        assert lock in held;
      }
    }

    /** lockdep_note_thread_releases_lock_slot; `rest` is what remains held. */
    method NoteReleases(lock: nat, ghost held: seq<nat>, ghost rest: seq<nat>)
      requires Shaped() && Tracks(held) && lock < maxSlots && |held| <= maxHeld
      requires multiset(rest) == multiset(held) - multiset{lock}
      modifies refcounts, bits
      ensures Tracks(rest)
      ensures !rbMode ==> unchanged(refcounts) && unchanged(bits)
    {
      hide Words.Bit;
      if !rbMode {
        return;
      }
      CountIsBounded(held, lock);
      WhatRemains(held, lock, rest);
      if refcounts[lock] == 0 {
        return;
      }
      refcounts[lock] := refcounts[lock] - 1;
      if refcounts[lock] == 0 {
        bits[lock / 64] := AndNotWord(bits[lock / 64], MaskWord(lock % 64));
      }
      forall l: nat | l / 64 < bits.Length
        ensures RowBit(bits, l) <==> l in rest
      {
        assert old(RowBit(bits, l)) <==> l in held;
        if l / 64 == lock / 64 && l % 64 == lock % 64 { assert l == lock; }
      }
    }

    /** lockdep_acquire_top_level_mutex_fast, held state only. */
    method AcquireTopLevel(lock: nat)
      requires Valid() && count == 0 && lock < maxSlots && maxHeld > 0
      modifies `count, slots, refcounts, bits
      ensures Valid() && Held() == old(Held()) + [lock]
    {
      NoteHolds(lock, []);
      slots[0] := lock;
      count := 1;
      assert [] + [lock] == Held();
    }

    /** lockdep_push_held_lock_slot, below the limit at which the source panics. */
    method Push(lock: nat)
      requires Valid() && count < maxHeld && lock < maxSlots
      modifies `count, slots, refcounts, bits
      ensures Valid() && Held() == old(Held()) + [lock]
    {
      NoteHolds(lock, Held());
      slots[count] := lock;
      count := count + 1;
      assert Held() == old(Held()) + [lock];
    }

    /** lockdep_acquire_mutex, held state only. */
    method Acquire(lock: nat)
      requires Valid() && count < maxHeld && lock < maxSlots
      modifies `count, slots, refcounts, bits
      ensures Valid() && Held() == old(Held()) + [lock]
    {
      if count == 0 {
        AcquireTopLevel(lock);
      } else {
        Push(lock);
      }
    }

    /** lockdep_remove_held_lock_slot: pop, or find the topmost occurrence and shift the rest down. */
    method Remove(lock: nat)
      requires Valid() && lock < maxSlots
      modifies `count, slots, refcounts, bits
      ensures Valid() && Held() == RemoveTop(old(Held()), lock)
    {
      hide RemoveTop, Tracks;
      if count > 0 && slots[count - 1] == lock {
        DropAt(lock, count - 1);
        return;
      }
      var i: int := count - 1;
      while i >= 0
        invariant -1 <= i < count
        invariant forall k :: i < k < count ==> slots[k] != lock
      {
        if slots[i] == lock {
          DropAt(lock, i);
          return;
        }
        i := i - 1;
      }
      RemoveTopOfAbsent(Held(), lock);
    }

    /** Dropping the topmost occurrence, once found. */
    method DropAt(lock: nat, i: nat)
      requires Valid() && lock < maxSlots && i < count && slots[i] == lock
      requires forall k :: i < k < count ==> slots[k] != lock
      modifies `count, slots, refcounts, bits
      ensures Valid() && Held() == RemoveTop(old(Held()), lock)
    {
      hide RemoveTop, Words.Bit, Tracks;
      ghost var held := Held();
      ghost var rest := held[..i] + held[i + 1..];
      DroppedMiddle(held, lock, i, rest);
      ShiftDown(i);
      count := count - 1;
      NoteReleases(lock, held, rest);
    }

    /** The inner shift loop. */
    method ShiftDown(i: nat)
      requires Shaped() && i < count
      modifies slots
      ensures slots[..count - 1] == old(Held()[..i] + Held()[i + 1..])
    {
      var j := i;
      while j + 1 < count
        invariant i <= j < count
        invariant forall k :: 0 <= k < i ==> slots[k] == old(slots[k])
        invariant forall k :: i <= k < j ==> slots[k] == old(slots[k + 1])
        invariant forall k :: j < k < count ==> slots[k] == old(slots[k])
      {
        slots[j] := slots[j + 1];
        j := j + 1;
      }
    }

    /** The whole release path of an unlock: top-level fast path, single-lock path, general path. */
    method Release(lock: nat)
      requires Valid() && lock < maxSlots
      modifies `count, slots, refcounts, bits
      ensures Valid() && Held() == RemoveTop(old(Held()), lock)
    {
      if count == 1 && slots[0] == lock {
        NoteReleases(lock, Held(), []);
        count := 0;
        return;
      }
      Remove(lock);
    }

    /** In ring-buffer mode the bitset that the skip test reads is the set of held locks. */
    lemma BitsAreHeldLocks()
      requires Valid() && rbMode
      ensures SlotsOf(bits[..]) == set l | l in Held()
    {
      forall l: nat
        ensures l in SlotsOf(bits[..]) <==> l in Held()
      {
        if l / 64 < bits.Length {
          assert RowBit(bits, l) <==> l in Held();
        }
      }
    }
  }

  /** With one occurrence fewer, a lock is still held if it was held more than once. */
  lemma WhatRemains(held: seq<nat>, lock: nat, rest: seq<nat>)
    requires multiset(rest) == multiset(held) - multiset{lock}
    ensures forall l :: l in rest <==> if l == lock then multiset(held)[lock] > 1 else l in held
    ensures lock in held <==> multiset(held)[lock] > 0
    ensures forall l :: multiset(rest)[l] ==
              if l == lock && multiset(held)[l] > 0 then multiset(held)[l] - 1 else multiset(held)[l]
  {
    forall l
      ensures l in rest <==> if l == lock then multiset(held)[lock] > 1 else l in held
    {
      assert l in rest <==> l in multiset(rest);
      assert l in held <==> l in multiset(held);
    }
    assert lock in held <==> lock in multiset(held);
  }

  lemma CountIsBounded(held: seq<nat>, lock: nat)
    ensures multiset(held)[lock] <= |held|
  {
    assert |multiset(held)| == |held|;
    MultiplicityFits(multiset(held), lock);
  }

  lemma MultiplicityFits(m: multiset<nat>, x: nat)
    ensures m[x] <= |m|
  {
    var others := m[x := 0];
    assert |others[x := m[x]]| == |others| + m[x];
    assert others[x := m[x]] == m;
  }

  lemma DroppedMiddle(held: seq<nat>, lock: nat, i: nat, rest: seq<nat>)
    requires i < |held| && held[i] == lock && lock !in held[i + 1..]
    requires rest == held[..i] + held[i + 1..]
    ensures RemoveTop(held, lock) == rest && multiset(rest) == multiset(held) - multiset{lock} && |rest| == |held| - 1
    ensures forall l :: l in rest ==> l in held
  {
    assert held == held[..i] + [lock] + held[i + 1..];
    ReleaseUndoesAcquire(held[..i], lock, held[i + 1..]);
    RemoveTopMultiset(held, lock);
  }
}
