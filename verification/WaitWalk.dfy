/** The wait-chain walk on fields that stand still: who owns the lock, what does the owner wait for,
    who owns that, and so on. */
module WaitWalk {
  import opened Slots
  import opened Pigeonhole

  ghost predicate InRange(owner: seq<int>, waiting: seq<int>) {
    && (forall l :: 0 <= l < |owner| ==> INVALID_SLOT <= owner[l] < |waiting|)
    && (forall t :: 0 <= t < |waiting| ==> INVALID_SLOT <= waiting[t] < |owner|)
  }

  /** The `k`-th lock of the chain that starts at `target`, or INVALID_SLOT once it has ended. */
  ghost function LockAt(owner: seq<int>, waiting: seq<int>, target: nat, k: nat): int
    requires InRange(owner, waiting) && target < |owner|
    ensures INVALID_SLOT <= LockAt(owner, waiting, target, k) < |owner|
    decreases k, 0
  {
    if k == 0 then target
    else
      var o := OwnerAt(owner, waiting, target, k - 1);
      if o == INVALID_SLOT then INVALID_SLOT else waiting[o]
  }

  /** The thread that owns that lock. */
  ghost function OwnerAt(owner: seq<int>, waiting: seq<int>, target: nat, k: nat): int
    requires InRange(owner, waiting) && target < |owner|
    ensures INVALID_SLOT <= OwnerAt(owner, waiting, target, k) < |waiting|
    decreases k, 1
  {
    var l := LockAt(owner, waiting, target, k);
    if l == INVALID_SLOT then INVALID_SLOT else owner[l]
  }

  /** The chain from `target` comes back to `self`. */
  ghost predicate Closes(owner: seq<int>, waiting: seq<int>, target: nat, self: nat)
    requires InRange(owner, waiting) && target < |owner|
  {
    exists k: nat :: OwnerAt(owner, waiting, target, k) == self
  }

  lemma OneLink(owner: seq<int>, waiting: seq<int>, target: nat, k: nat)
    requires InRange(owner, waiting) && target < |owner|
    ensures LockAt(owner, waiting, target, 0) == target
    ensures var l, o := LockAt(owner, waiting, target, k), OwnerAt(owner, waiting, target, k);
            && o == (if l == INVALID_SLOT then INVALID_SLOT else owner[l])
            && LockAt(owner, waiting, target, k + 1) == (if o == INVALID_SLOT then INVALID_SLOT else waiting[o])
            && (LockAt(owner, waiting, target, k + 1) == INVALID_SLOT ==>
                  OwnerAt(owner, waiting, target, k + 1) == INVALID_SLOT)
  {
  }

  /** A chain that has ended stays ended. */
  lemma {:induction false} EndedStaysEnded(owner: seq<int>, waiting: seq<int>, target: nat, n: nat, k: nat)
    requires InRange(owner, waiting) && target < |owner| && n <= k
    requires OwnerAt(owner, waiting, target, n) == INVALID_SLOT
    ensures OwnerAt(owner, waiting, target, k) == INVALID_SLOT
    decreases k
  {
    if n < k {
      EndedStaysEnded(owner, waiting, target, n, k - 1);
    }
  }

  /** Once two owners of the chain coincide it runs in a loop and meets nobody new. */
  lemma {:induction false} LoopMeetsNobodyNew(owner: seq<int>, waiting: seq<int>, target: nat, i: nat, j: nat, k: nat)
    returns (back: nat)
    requires InRange(owner, waiting) && target < |owner| && i < j
    requires OwnerAt(owner, waiting, target, i) == OwnerAt(owner, waiting, target, j)
    ensures back < j && OwnerAt(owner, waiting, target, back) == OwnerAt(owner, waiting, target, k)
    decreases k
  {
    if k < j {
      back := k;
    } else {
      var b := LoopMeetsNobodyNew(owner, waiting, target, i, j, k - 1);
      back := if b + 1 < j then b + 1 else i;
      if k == j {
        back := i;
      } else {
        NextOwner(owner, waiting, target, b, k - 1);
      }
    }
  }

  lemma NextOwner(owner: seq<int>, waiting: seq<int>, target: nat, i: nat, j: nat)
    requires InRange(owner, waiting) && target < |owner|
    requires OwnerAt(owner, waiting, target, i) == OwnerAt(owner, waiting, target, j)
    ensures OwnerAt(owner, waiting, target, i + 1) == OwnerAt(owner, waiting, target, j + 1)
  {
  }

  /** As many owners as there are threads, none of them `self`: two of them coincide. */
  lemma OwnersRepeat(owners: seq<nat>, threads: nat, self: nat)
    requires |owners| == threads && self < threads
    requires forall o :: o in owners ==> o < threads && o != self
    ensures !Distinct(owners)
  {
    if Distinct(owners) {
      DistinctCount(owners);
      SubsetIsNotLarger(Elements(owners), Below(threads) - {self});
    }
  }

  /** lockdep_collect_actual_deadlock_chain, with one thread slot per entry of `waiting`. The bound
      on the number of steps never hides a chain that closes, a chain that loops elsewhere ends with
      "no", and both chain arrays suffice. */
  method CollectChain(self: nat, target: nat, owner: array<int>, waiting: array<int>,
                      threadChain: array<int>, lockChain: array<int>)
    returns (found: bool, edgeCount: nat)
    requires InRange(owner[..], waiting[..]) && self < waiting.Length && target < owner.Length
    requires threadChain.Length == waiting.Length + 1 && lockChain.Length == waiting.Length
    requires threadChain !in {owner, waiting, lockChain} && lockChain !in {owner, waiting}
    modifies threadChain, lockChain
    ensures found <==> Closes(owner[..], waiting[..], target, self)
    ensures edgeCount <= waiting.Length && threadChain[0] == self
    ensures forall i :: 0 <= i < edgeCount ==>
              && lockChain[i] == LockAt(owner[..], waiting[..], target, i)
              && threadChain[i + 1] == OwnerAt(owner[..], waiting[..], target, i) != INVALID_SLOT
    ensures found ==> edgeCount > 0 && threadChain[edgeCount] == self
    ensures forall i :: 1 <= i <= edgeCount && !(found && i == edgeCount) ==> threadChain[i] != self
    ensures !found && edgeCount < waiting.Length ==> OwnerAt(owner[..], waiting[..], target, edgeCount) == INVALID_SLOT
  {
    hide LockAt, OwnerAt, Closes;
    edgeCount := 0;
    var current: int := target;
    threadChain[0] := self;
    ghost var own, wait := owner[..], waiting[..];
    OneLink(own, wait, target, 0);
    while edgeCount < waiting.Length
      invariant owner[..] == own && waiting[..] == wait
      invariant edgeCount <= waiting.Length && threadChain[0] == self
      invariant current == LockAt(own, wait, target, edgeCount) != INVALID_SLOT
      invariant forall i :: 0 <= i < edgeCount ==>
                  && lockChain[i] == LockAt(own, wait, target, i)
                  && threadChain[i + 1] == OwnerAt(own, wait, target, i) != INVALID_SLOT
                  && threadChain[i + 1] != self
      invariant forall i :: 1 <= i <= edgeCount ==> threadChain[i] != self
      decreases waiting.Length - edgeCount
    {
      OneLink(own, wait, target, edgeCount);
      var ownerSlot := owner[current];
      if ownerSlot == INVALID_SLOT {
        ChainEnded(own, wait, target, self, edgeCount);
        return false, edgeCount;
      }
      lockChain[edgeCount] := current;
      threadChain[edgeCount + 1] := ownerSlot;
      edgeCount := edgeCount + 1;
      if ownerSlot == self {
        ChainCloses(own, wait, target, self, edgeCount - 1);
        return true, edgeCount;
      }
      current := waiting[ownerSlot];
      if current == INVALID_SLOT {
        ChainEnded(own, wait, target, self, edgeCount);
        return false, edgeCount;
      }
    }
    BoundSuffices(own, wait, target, self);
    return false, edgeCount;
  }

  lemma ChainCloses(owner: seq<int>, waiting: seq<int>, target: nat, self: nat, k: nat)
    requires InRange(owner, waiting) && target < |owner| && OwnerAt(owner, waiting, target, k) == self
    ensures Closes(owner, waiting, target, self)
  {
  }

  lemma ChainEnded(owner: seq<int>, waiting: seq<int>, target: nat, self: nat, n: nat)
    requires InRange(owner, waiting) && target < |owner|
    requires OwnerAt(owner, waiting, target, n) == INVALID_SLOT
    requires forall i :: 0 <= i < n ==> OwnerAt(owner, waiting, target, i) != self
    ensures !Closes(owner, waiting, target, self)
  {
    forall k: nat
      ensures OwnerAt(owner, waiting, target, k) != self
    {
      if n <= k {
        EndedStaysEnded(owner, waiting, target, n, k);
      }
    }
  }

  /** With as many steps as threads, a chain that closes at all has closed. */
  lemma BoundSuffices(owner: seq<int>, waiting: seq<int>, target: nat, self: nat)
    requires InRange(owner, waiting) && target < |owner| && self < |waiting|
    requires forall i :: 0 <= i < |waiting| ==> OwnerAt(owner, waiting, target, i) !in {self, INVALID_SLOT}
    ensures !Closes(owner, waiting, target, self)
  {
    var owners: seq<nat> := seq(|waiting|, i requires 0 <= i < |waiting| => OwnerAt(owner, waiting, target, i) as nat);
    OwnersRepeat(owners, |waiting|, self);
    var i, j :| 0 <= i < j < |owners| && owners[i] == owners[j];
    forall k: nat
      ensures OwnerAt(owner, waiting, target, k) != self
    {
      var back := LoopMeetsNobodyNew(owner, waiting, target, i, j, k);
    }
  }
}
