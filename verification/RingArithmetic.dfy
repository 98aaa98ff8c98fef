/** Ring counters are 32-bit and wrap around; slots are counter modulo capacity. */
module RingArithmetic {

  /** The number of values of `unsigned int`. */
  const COUNTERS: nat := 0x1_0000_0000

  function Wrap(x: nat): (w: nat)
    ensures w < COUNTERS
  {
    x % COUNTERS
  }

  /** `a - b` on `unsigned int` */
  function Sub32(a: nat, b: nat): (d: nat)
    requires a < COUNTERS && b < COUNTERS
    ensures d < COUNTERS
  {
    (a + COUNTERS - b) % COUNTERS
  }

  /** Wrapped subtraction measures the true distance of two counters less than a wrap apart. */
  lemma Sub32IsDistance(tail: nat, head: nat)
    requires head <= tail < head + COUNTERS
    ensures Sub32(Wrap(tail), Wrap(head)) == tail - head
  {
  }

  /** Wrapped counters are equal exactly when the counters are. */
  lemma WrapSeparates(tail: nat, head: nat)
    requires head <= tail < head + COUNTERS
    ensures Wrap(tail) == Wrap(head) <==> tail == head
  {
  }

  lemma {:induction false} ModDropsMultiple(x: nat, capacity: nat, n: nat)
    requires capacity > 0 && capacity * n <= x
    ensures (x - capacity * n) % capacity == x % capacity
    decreases n
  {
    if n > 0 {
      assert capacity * n == capacity * (n - 1) + capacity;
      ModDropsMultiple(x, capacity, n - 1);
      ModDropsOne(x - capacity * (n - 1), capacity);
    }
  }

  lemma ModDropsOne(x: nat, capacity: nat)
    requires 0 < capacity <= x
    ensures (x - capacity) % capacity == x % capacity
  {
    var q, r := x / capacity, x % capacity;
    assert x == capacity * q + r;
    ModUnique(x - capacity, capacity, q - 1, r);
  }

  lemma MultipleBounds(capacity: int, q: int)
    requires capacity > 0
    ensures q >= 1 ==> capacity * q >= capacity
    ensures q <= -1 ==> capacity * q <= -capacity
  {
    assert capacity * q == capacity + capacity * (q - 1);
    assert capacity * q == -capacity + capacity * (q + 1);
  }

  lemma ModUnique(x: int, capacity: nat, q: int, r: nat)
    requires capacity > 0 && x == capacity * q + r && r < capacity
    ensures x % capacity == r
  {
    var q', r' := x / capacity, x % capacity;
    assert x == capacity * q' + r';
    assert capacity * (q - q') == capacity * q - capacity * q';
    MultipleBounds(capacity, q - q');
  }

  /** Incrementing a wrapped counter is wrapping the incremented one. */
  lemma WrapNext(x: nat)
    ensures Wrap(Wrap(x) + 1) == Wrap(x + 1)
  {
  }

  /** The slot computed from a wrapped counter is the slot of the true counter, however often the
      counter has wrapped, if and only if the capacity divides 2^32. */
  lemma SlotSurvivesWrapIffDivides(capacity: nat)
    requires capacity > 0
    ensures (forall x: nat :: Wrap(x) % capacity == x % capacity) <==> COUNTERS % capacity == 0
  {
    if COUNTERS % capacity == 0 {
      forall x: nat
        ensures Wrap(x) % capacity == x % capacity
      {
        SlotSurvivesWrap(x, capacity);
      }
    } else {
      assert Wrap(COUNTERS) == 0;
      assert Wrap(COUNTERS) % capacity == 0;
    }
  }

  lemma SlotSurvivesWrap(x: nat, capacity: nat)
    requires capacity > 0 && COUNTERS % capacity == 0
    ensures Slot(Wrap(x), capacity) == Slot(x, capacity)
  {
    var k, wraps := COUNTERS / capacity, x / COUNTERS;
    assert COUNTERS == capacity * k;
    assert x == COUNTERS * wraps + Wrap(x);
    assert COUNTERS * wraps == capacity * (k * wraps);
    ModDropsMultiple(x, capacity, k * wraps);
  }

  /** The ring slot of a counter. */
  function Slot(counter: nat, capacity: nat): (slot: nat)
    requires capacity > 0
    ensures slot < capacity
  {
    counter % capacity
  }

  /** Counters less than a capacity apart use different slots. */
  lemma SlotsDiffer(a: nat, b: nat, capacity: nat)
    requires a < b < a + capacity
    ensures Slot(a, capacity) != Slot(b, capacity)
  {
    if a % capacity == b % capacity {
      var qa, qb := a / capacity, b / capacity;
      assert a == capacity * qa + a % capacity && b == capacity * qb + b % capacity;
      assert capacity * (qb - qa) == capacity * qb - capacity * qa;
      MultipleBounds(capacity, qb - qa);
    }
  }

  /** What a capacity that does not divide 2^32 would cost: counters less than a capacity apart, so both
      possibly of events still in the ring, keep different slots across every wrap if and only if the
      capacity divides 2^32. */
  lemma LiveSlotsDifferIffDivides(capacity: nat)
    requires capacity > 0
    ensures (forall a: nat, b: nat :: a < b < a + capacity ==> Slot(Wrap(a), capacity) != Slot(Wrap(b), capacity)) <==>
            COUNTERS % capacity == 0
  {
    hide Wrap, Slot;
    if COUNTERS % capacity == 0 {
      forall a: nat, b: nat | a < b < a + capacity
        ensures Slot(Wrap(a), capacity) != Slot(Wrap(b), capacity)
      {
        SlotSurvivesWrap(a, capacity);
        SlotSurvivesWrap(b, capacity);
        SlotsDiffer(a, b, capacity);
      }
    } else {
      SharedSlot(capacity);
    }
  }

  /** The two counters that meet: the first after the wrap, and the last multiple of the capacity before it. */
  lemma SharedSlot(capacity: nat)
    requires capacity > 0 && COUNTERS % capacity != 0
    ensures var a: nat := COUNTERS - COUNTERS % capacity;
            a < COUNTERS < a + capacity && Slot(Wrap(a), capacity) == Slot(Wrap(COUNTERS), capacity)
  {
    hide Wrap, Slot;
    var a := LastMultiple(COUNTERS, capacity);
    WrapAtTheEnd(a);
    assert Slot(0, capacity) == 0 by {
      SlotOfMultiple(0, capacity, 0);
    }
  }

  lemma WrapAtTheEnd(a: nat)
    requires a < COUNTERS
    ensures Wrap(a) == a && Wrap(COUNTERS) == 0
  {
  }

  lemma SlotOfMultiple(x: nat, capacity: nat, q: nat)
    requires capacity > 0 && x == capacity * q
    ensures Slot(x, capacity) == 0
  {
    ModUnique(x, capacity, q, 0);
  }

  lemma LastMultiple(x: nat, capacity: nat) returns (a: nat)
    requires capacity > 0 && x % capacity != 0
    ensures a == x - x % capacity && a < x < a + capacity && Slot(a, capacity) == 0
  {
    var q, r := x / capacity, x % capacity;
    assert x == capacity * q + r;
    MultipleBounds(capacity, q);
    a := x - r;
    SlotOfMultiple(a, capacity, q);
  }
}
