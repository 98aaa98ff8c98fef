/** The append-only registries that number mutex addresses and threads, and the per-thread cache of
    address lookups. The registry operations run under the metadata lock, one at a time. */
module SlotRegistry {
  import opened Reports
  import RingArithmetic

  /** g_lock_slots with g_lock_slot_count, and g_thread_slots with g_thread_slot_count. */
  class SlotTable<Key(==,0)> {
    const capacity: nat
    const keys: array<Key>
    var count: nat

    ghost function Entries(): seq<Key>
      requires count <= keys.Length
      reads this, keys
    {
      keys[..count]
    }

    /** No key has two slots. */
    ghost predicate Valid()
      reads this, keys
    {
      && keys.Length == capacity && count <= capacity
      && forall i, j :: 0 <= i < j < count ==> keys[i] != keys[j]
    }

    constructor (capacity: nat)
      ensures Valid() && fresh(keys) && Entries() == [] && this.capacity == capacity
    {
      this.capacity := capacity;
      keys := new Key[capacity];
      count := 0;
    }

    /** lockdep_lookup_lock_slot: the slot of the key, if it has one. */
    method Lookup(key: Key) returns (slot: Option<nat>)
      requires Valid()
      ensures slot == SlotOf(Entries(), key)
    {
      for i := 0 to count
        invariant key !in keys[..i]
      {
        if keys[i] == key {
          SlotOfIsUnique(Entries(), key, i);
          return Some(i);
        }
        assert keys[..i + 1] == keys[..i] + [keys[i]];
      }
      SlotOfAbsent(Entries(), key);
      return None;
    }

    /** lockdep_lookup_or_create_lock_slot and lockdep_get_or_register_thread_slot, below the limit
        at which the source panics: the entries stay or grow by the key at the end. */
    method LookupOrCreate(key: Key) returns (slot: nat)
      requires Valid() && (key in Entries() || count < capacity)
      modifies `count, keys
      ensures Valid()
      ensures Entries() == if key in old(Entries()) then old(Entries()) else old(Entries()) + [key]
      ensures SlotOf(Entries(), key) == Some(slot)
    {
      for i := 0 to count
        invariant Valid() && Entries() == old(Entries()) && count == old(count)
        invariant key !in keys[..i]
      {
        if keys[i] == key {
          SlotOfIsUnique(Entries(), key, i);
          return i;
        }
        assert keys[..i + 1] == keys[..i] + [keys[i]];
      }
      slot := count;
      keys[slot] := key;
      count := slot + 1;
      assert Entries() == old(Entries()) + [key];
      SlotOfIsUnique(Entries(), key, slot);
    }
  }

  ghost predicate Injective<Key>(entries: seq<Key>) {
    forall i, j :: 0 <= i < j < |entries| ==> entries[i] != entries[j]
  }

  /** The registry as a map: the first slot whose entry is the key. */
  ghost function SlotOf<Key>(entries: seq<Key>, key: Key): Option<nat> {
    if entries == [] then None
    else if entries[0] == key then Some(0)
    else
      match SlotOf(entries[1..], key)
      case Some(s) => Some(s + 1)
      case None => None
  }

  lemma {:induction false} SlotOfIsUnique<Key>(entries: seq<Key>, key: Key, slot: nat)
    requires Injective(entries) && slot < |entries| && entries[slot] == key
    ensures SlotOf(entries, key) == Some(slot)
  {
    if slot > 0 {
      SlotOfIsUnique(entries[1..], key, slot - 1);
    }
  }

  lemma {:induction false} SlotOfAbsent<Key>(entries: seq<Key>, key: Key)
    ensures SlotOf(entries, key) == None <==> key !in entries
  {
    if entries != [] {
      SlotOfAbsent(entries[1..], key);
      assert entries == [entries[0]] + entries[1..];
    }
  }

  /** A slot, once given, is the key's slot for ever. */
  lemma {:induction false} SlotOfIsStable<Key>(entries: seq<Key>, more: seq<Key>, key: Key)
    requires SlotOf(entries, key).Some?
    ensures SlotOf(entries + more, key) == SlotOf(entries, key)
  {
    assert entries[0] == (entries + more)[0];
    assert (entries + more)[1..] == entries[1..] + more;
    if entries[0] != key {
      SlotOfIsStable(entries[1..], more, key);
    }
  }

  /** Different keys never share a slot. */
  lemma {:induction false} SlotOfIsInjective<Key>(entries: seq<Key>, key: Key, other: Key)
    requires SlotOf(entries, key).Some? && SlotOf(entries, key) == SlotOf(entries, other)
    ensures key == other
  {
    if entries[0] != key && entries[0] != other {
      SlotOfIsInjective(entries[1..], key, other);
    }
  }

  // ---------------------------------------------------------------- the TLS cache

  type Address = nat

  const NULL: Address := 0

  /** One thread's cache: entry `(addr >> 3) & (size - 1)`, size a power of two. A cache that was
      never written holds the null address everywhere. */
  class SlotCache {
    const size: nat
    const mutexes: array<Address>
    const slots: array<nat>

    /** Every non-null entry agrees with the registry. */
    ghost predicate Agrees(entries: seq<Address>)
      reads mutexes, slots
    {
      && mutexes.Length == slots.Length == size && size > 0
      && forall i :: 0 <= i < size && mutexes[i] != NULL ==> SlotOf(entries, mutexes[i]) == Some(slots[i])
    }

    constructor (size: nat)
      requires size > 0
      ensures forall entries :: Agrees(entries)
      ensures fresh(mutexes) && fresh(slots)
    {
      this.size := size;
      mutexes := new Address[size](_ => NULL);
      slots := new nat[size](_ => 0);
    }

    function Index(mutex: Address): (i: nat)
      requires size > 0
      ensures i < size
    {
      (mutex / 8) % size
    }

    /** Addresses within eight bytes share an entry, and the next eight bytes use the next one. */
    lemma EntriesAreGranules(mutex: Address, d: nat)
      requires size > 0 && mutex % 8 == 0 && d < 8
      ensures Index(mutex + d) == Index(mutex)
      ensures Index(mutex + 8) == if Index(mutex) + 1 == size then 0 else Index(mutex) + 1
    {
      assert (mutex + d) / 8 == mutex / 8 && (mutex + 8) / 8 == mutex / 8 + 1;
      NextModulo(mutex / 8, size);
    }

    /** Growth of the registry, by any thread, never invalidates a cache. */
    lemma AgreesForever(entries: seq<Address>, more: seq<Address>)
      requires Agrees(entries)
      ensures Agrees(entries + more)
    {
      forall i | 0 <= i < size && mutexes[i] != NULL
        ensures SlotOf(entries + more, mutexes[i]) == Some(slots[i])
      {
        SlotOfIsStable(entries, more, mutexes[i]);
      }
    }

    /** The next lookup of the address is answered from the cache. */
    ghost predicate Remembers(mutex: Address, slot: nat)
      reads mutexes, slots
    {
      mutexes.Length == slots.Length == size > 0 && mutexes[Index(mutex)] == mutex && slots[Index(mutex)] == slot
    }

    /** At most the entry that the address falls into has changed. */
    ghost predicate RestUnchanged(mutex: Address, before: seq<Address>, slotsBefore: seq<nat>)
      reads mutexes, slots
    {
      && mutexes.Length == slots.Length == |before| == |slotsBefore| == size > 0
      && forall i :: 0 <= i < size && i != Index(mutex) ==> mutexes[i] == before[i] && slots[i] == slotsBefore[i]
    }

    /** lockdep_lookup_lock_slot_cached_fast: what the uncached lookup would return. */
    method Lookup(registry: SlotTable<Address>, mutex: Address) returns (slot: Option<nat>)
      requires registry.Valid() && Agrees(registry.Entries()) && mutex != NULL
      requires mutexes != registry.keys && slots != registry.keys && mutexes != slots
      modifies mutexes, slots
      ensures registry.Valid() && registry.Entries() == old(registry.Entries())
      ensures Agrees(registry.Entries())
      ensures slot == SlotOf(registry.Entries(), mutex)
      ensures slot.Some? ==> Remembers(mutex, slot.value)
      ensures RestUnchanged(mutex, old(mutexes[..]), old(slots[..]))
    {
      var i := Index(mutex);
      if mutexes[i] == mutex {
        return Some(slots[i]);
      }
      slot := registry.Lookup(mutex);
      if slot.Some? {
        mutexes[i] := mutex;
        slots[i] := slot.value;
      }
    }

    /** lockdep_lookup_or_create_lock_slot_cached_fast */
    method LookupOrCreate(registry: SlotTable<Address>, mutex: Address) returns (slot: nat)
      requires registry.Valid() && Agrees(registry.Entries()) && mutex != NULL
      requires mutex in registry.Entries() || registry.count < registry.capacity
      requires mutexes != registry.keys && slots != registry.keys && mutexes != slots
      modifies mutexes, slots, registry`count, registry.keys
      ensures registry.Valid()
      ensures registry.Entries() ==
              if mutex in old(registry.Entries()) then old(registry.Entries()) else old(registry.Entries()) + [mutex]
      ensures Agrees(registry.Entries())
      ensures SlotOf(registry.Entries(), mutex) == Some(slot)
      ensures Remembers(mutex, slot) && RestUnchanged(mutex, old(mutexes[..]), old(slots[..]))
    {
      var i := Index(mutex);
      if mutexes[i] == mutex {
        SlotOfAbsent(registry.Entries(), mutex);
        return slots[i];
      }
      ghost var before := registry.Entries();
      slot := registry.LookupOrCreate(mutex);
      if mutex !in before {
        AgreesForever(before, [mutex]);
      }
      mutexes[i] := mutex;
      slots[i] := slot;
    }

    /** lockdep_try_lookup_top_held_lock_slot: comparing the address of the topmost held slot
        answers as the registry would. */
    lemma TopOfStackAgrees(registry: SlotTable<Address>, top: nat, mutex: Address)
      requires registry.Valid() && top < registry.count
      ensures registry.keys[top] == mutex <==> SlotOf(registry.Entries(), mutex) == Some(top)
    {
      SlotOfIsUnique(registry.Entries(), registry.keys[top], top);
      if SlotOf(registry.Entries(), mutex) == Some(top) {
        SlotOfIsInjective(registry.Entries(), mutex, registry.keys[top]);
      }
    }
  }

  lemma NextModulo(x: nat, n: nat)
    requires n > 0
    ensures (x + 1) % n == if x % n + 1 == n then 0 else x % n + 1
  {
    var q, r := x / n, x % n;
    assert x == n * q + r;
    if r + 1 == n {
      RingArithmetic.ModUnique(x + 1, n, q + 1, 0);
    } else {
      RingArithmetic.ModUnique(x + 1, n, q, r + 1);
    }
  }
}
