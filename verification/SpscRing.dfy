/** The single-producer single-consumer ring between one application thread and the worker, at the
    grain of single loads, stores and field copies. Every method below is one atomic step, and any
    producer step may come between any two consumer steps; `Valid()` holds between all of them, so
    what the steps promise holds in every interleaving. */
module SpscRing {
  import opened RingArithmetic

  /** Writing an event into its slot, field by field, after the ring was found not full. */
  datatype ProducerState<V> = Ready | Writing(event: seq<V>, written: nat)

  /** Copying an event out of its slot, field by field, after the ring was found not empty. */
  datatype ConsumerState<V> = Waiting | Copying(copied: seq<V>)

  class Ring<V(0)> {
    const capacity: nat
    const fields: nat
    const slots: array2<V>
    var head: nat
    var tail: nat
    var producer: ProducerState<V>
    var consumer: ConsumerState<V>

    /** All events ever published, and how many have been consumed: the unbounded counters behind
        `tail` and `head`. */
    ghost var published: seq<seq<V>>
    ghost var taken: nat

    /** The abstract FIFO queue. */
    ghost function Queue(): seq<seq<V>>
      requires taken <= |published|
      reads this
    {
      published[taken..]
    }

    ghost predicate Shaped()
      reads this
    {
      && 0 < capacity < COUNTERS && COUNTERS % capacity == 0
      && slots.Length0 == capacity && slots.Length1 == fields
      && taken <= |published| <= taken + capacity
      && head == Wrap(taken) && tail == Wrap(|published|)
      && forall e :: e in published ==> |e| == fields
    }

    ghost predicate Valid()
      reads this, slots
    {
      && Shaped()
      && (forall i, f :: taken <= i < |published| && 0 <= f < fields ==> slots[Slot(i, capacity), f] == published[i][f])
      && (producer.Writing? ==>
            && |producer.event| == fields && producer.written <= fields && |published| < taken + capacity
            && forall f :: 0 <= f < producer.written ==> slots[Slot(|published|, capacity), f] == producer.event[f])
      && (consumer.Copying? ==>
            && taken < |published|
            && |consumer.copied| <= fields
            && forall f :: 0 <= f < |consumer.copied| ==> consumer.copied[f] == published[taken][f])
    }

    /** Capacities that do not divide 2^32 are excluded: for those the slot index is wrong after a
        wrap (SlotSurvivesWrapIffDivides). The source's 4096 does. */
    constructor (capacity: nat, fields: nat)
      requires 0 < capacity < COUNTERS && COUNTERS % capacity == 0
      ensures Valid() && Queue() == [] && producer.Ready? && consumer.Waiting?
      ensures this.capacity == capacity && this.fields == fields && fresh(slots)
    {
      this.capacity, this.fields := capacity, fields;
      slots := new V[capacity, fields];
      head, tail, producer, consumer := 0, 0, Ready, Waiting;
      published, taken := [], 0;
    }

    // ---------------------------------------------------------------- producer

    /** `tail - head < CAPACITY`: the test in 32-bit arithmetic is the true one. */
    method TestFull(event: seq<V>) returns (full: bool)
      requires Valid() && producer.Ready? && |event| == fields
      modifies `producer
      ensures Valid()
      ensures full <==> |Queue()| == capacity
      ensures producer == if full then old(producer) else Writing(event, 0)
    {
      hide Slot, Wrap, Sub32;
      Sub32IsDistance(|published|, taken);
      full := !(Sub32(tail, head) < capacity);
      if !full {
        producer := Writing(event, 0);
      }
    }

    /** Storing one field. The slot is none that the consumer may be reading. */
    method WriteField()
      requires Valid() && producer.Writing? && producer.written < fields
      modifies `producer, slots
      ensures Valid()
      ensures producer == old(producer).(written := old(producer).written + 1)
      ensures forall i, f :: taken <= i < |published| && 0 <= f < fields ==>
                slots[Slot(i, capacity), f] == old(slots[Slot(i, capacity), f])
    {
      hide Slot, Wrap;
      SlotSurvivesWrap(|published|, capacity);
      forall i | taken <= i < |published|
        ensures Slot(i, capacity) != Slot(|published|, capacity)
      {
        SlotsDiffer(i, |published|, capacity);
      }
      slots[Slot(tail, capacity), producer.written] := producer.event[producer.written];
      producer := producer.(written := producer.written + 1);
    }

    /** Storing the tail appends the event to the queue. */
    method Publish()
      requires Valid() && producer.Writing? && producer.written == fields
      modifies `producer, `tail, `published
      ensures Valid() && producer.Ready?
      ensures Queue() == old(Queue()) + [old(producer).event] && taken == old(taken)
    {
      hide Slot, Wrap;
      ghost var before := published;
      WrapNext(|published|);
      published := published + [producer.event];
      tail := Wrap(tail + 1);
      producer := Ready;
      assert forall i :: 0 <= i < |before| ==> published[i] == before[i];
      assert published[taken..] == before[taken..] + [old(producer).event];
    }

    // ---------------------------------------------------------------- consumer

    /** `head == tail`: equal wrapped counters mean an empty queue. */
    method TestEmpty() returns (empty: bool)
      requires Valid() && consumer.Waiting?
      modifies `consumer
      ensures Valid()
      ensures empty <==> Queue() == []
      ensures consumer == if empty then Waiting else Copying([])
    {
      hide Slot, Wrap;
      WrapSeparates(|published|, taken);
      empty := head == tail;
      if !empty {
        consumer := Copying([]);
      }
    }

    /** Loading one field. */
    method CopyField()
      requires Valid() && consumer.Copying? && |consumer.copied| < fields
      modifies `consumer
      ensures Valid() && consumer.Copying? && |consumer.copied| == |old(consumer).copied| + 1
    {
      hide Slot, Wrap;
      SlotSurvivesWrap(taken, capacity);
      consumer := Copying(consumer.copied + [slots[Slot(head, capacity), |consumer.copied|]]);
    }

    /** Storing the head removes the front of the queue, and the copy is that event whole. */
    method Advance() returns (event: seq<V>)
      requires Valid() && consumer.Copying? && |consumer.copied| == fields
      modifies `consumer, `head, `taken
      ensures Valid() && consumer.Waiting?
      ensures old(Queue()) == [event] + Queue() && published == old(published)
    {
      hide Slot, Wrap;
      WrapNext(taken);
      event := consumer.copied;
      assert event == published[taken];
      head := Wrap(head + 1);
      taken := taken + 1;
      consumer := Waiting;
    }

    // ---------------------------------------------------------------- whole operations

    /** The tail end of lockdep_rb_enqueue_edge_batch, run without interruption. */
    method TryEnqueue(event: seq<V>) returns (done: bool)
      requires Valid() && producer.Ready? && |event| == fields
      modifies this, slots
      ensures Valid() && producer.Ready?
      ensures done <==> |old(Queue())| < capacity
      ensures Queue() == if done then old(Queue()) + [event] else old(Queue())
    {
      var full := TestFull(event);
      if full {
        return false;
      }
      while producer.written < fields
        invariant Valid() && producer.Writing? && producer.event == event
        invariant published == old(published) && taken == old(taken)
        decreases fields - producer.written
      {
        WriteField();
      }
      Publish();
      return true;
    }

    /** lockdep_rb_try_dequeue_event, run without interruption. */
    method TryDequeue() returns (done: bool, event: seq<V>)
      requires Valid() && consumer.Waiting?
      modifies this
      ensures Valid() && consumer.Waiting?
      ensures done <==> old(Queue()) != []
      ensures if done then old(Queue()) == [event] + Queue() else Queue() == old(Queue())
    {
      event := [];
      var empty := TestEmpty();
      if empty {
        return false, [];
      }
      while |consumer.copied| < fields
        invariant Valid() && consumer.Copying?
        invariant published == old(published) && taken == old(taken)
        decreases fields - |consumer.copied|
      {
        CopyField();
      }
      event := Advance();
      done := true;
    }
  }
}
