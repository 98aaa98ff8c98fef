/** The held-lock stack of one thread, as a sequence with the most recent acquisition last. */
module HeldStack {

  /** Removing a lock deletes its topmost occurrence; a lock that is not held is ignored. */
  function RemoveTop(stack: seq<nat>, lock: nat): seq<nat> {
    if stack == [] then []
    else if stack[|stack| - 1] == lock then stack[..|stack| - 1]
    else RemoveTop(stack[..|stack| - 1], lock) + [stack[|stack| - 1]]
  }

  /** The position that goes is the last one holding the lock; everything else keeps its order. */
  lemma {:induction false} RemoveTopDeletesLast(stack: seq<nat>, lock: nat) returns (i: nat)
    requires lock in stack
    ensures i < |stack| && stack[i] == lock && lock !in stack[i + 1..]
    ensures RemoveTop(stack, lock) == stack[..i] + stack[i + 1..]
  {
    var n := |stack| - 1;
    if stack[n] == lock {
      i := n;
      assert stack[..n] + stack[n + 1..] == stack[..n];
    } else {
      var init := stack[..n];
      assert stack == init + [stack[n]];
      i := RemoveTopDeletesLast(init, lock);
      assert stack[i + 1..] == init[i + 1..] + [stack[n]];
      assert stack[..i] == init[..i];
    }
  }

  lemma {:induction false} RemoveTopOfAbsent(stack: seq<nat>, lock: nat)
    requires lock !in stack
    ensures RemoveTop(stack, lock) == stack
  {
    if stack != [] {
      RemoveTopOfAbsent(stack[..|stack| - 1], lock);
    }
  }

  /** Releasing undoes the matching acquisition, also when other locks were taken in between. */
  lemma {:induction false} ReleaseUndoesAcquire(stack: seq<nat>, lock: nat, later: seq<nat>)
    requires lock !in later
    ensures RemoveTop(stack + [lock] + later, lock) == stack + later
  {
    var all := stack + [lock] + later;
    if later == [] {
      assert all[..|all| - 1] == stack && stack + later == stack;
    } else {
      var init, last := later[..|later| - 1], later[|later| - 1];
      assert later == init + [last];
      assert all[..|all| - 1] == stack + [lock] + init;
      ReleaseUndoesAcquire(stack, lock, init);
      assert stack + later == stack + init + [last];
    }
  }

  lemma {:induction false} RemoveTopMultiset(stack: seq<nat>, lock: nat)
    ensures multiset(RemoveTop(stack, lock)) == multiset(stack) - multiset{lock}
    ensures |RemoveTop(stack, lock)| == if lock in stack then |stack| - 1 else |stack|
  {
    if stack != [] {
      var init, last := stack[..|stack| - 1], stack[|stack| - 1];
      assert stack == init + [last];
      RemoveTopMultiset(init, lock);
      assert multiset(stack) == multiset(init) + multiset{last};
      if last != lock {
        assert multiset(RemoveTop(init, lock) + [last]) == multiset(RemoveTop(init, lock)) + multiset{last};
      }
    }
  }
}
