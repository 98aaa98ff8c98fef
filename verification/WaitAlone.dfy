/** What one call does when its thread runs alone. The steps of the interleaving machine, taken one after the
    other by one thread, are the calls of the application: lock, unlock, and a nested lock that finds the
    mutex busy and walks the chain on fields that stand still. */
module WaitAlone {
  import opened Slots
  import opened WaitMachine
  import opened WaitSound
  import WaitWalk

  /** Thread `t` takes all the steps. */
  ghost predicate Alone(c: Config, states: seq<State>, t: nat) {
    |states| > 0 && forall i :: 0 <= i < |states| - 1 ==> Step(c, states[i], states[i + 1], t)
  }

  lemma AloneThen(c: Config, states: seq<State>, s': State, t: nat)
    requires Alone(c, states, t) && Step(c, states[|states| - 1], s', t)
    ensures Alone(c, states + [s'], t)
  {
    hide Step;
    var longer := states + [s'];
    forall i | 0 <= i < |longer| - 1
      ensures Step(c, longer[i], longer[i + 1], t)
    {
      if i < |states| - 1 {
        assert Step(c, states[i], states[i + 1], t);
      }
    }
  }

  /** The thread holds the lock and says so; nothing else has changed. */
  ghost function HoldingToo(s: State, t: nat, m: nat): State
    requires t < |s.thr| == |s.waiting| && m < |s.holder| == |s.owner|
  {
    s.(holder := s.holder[m := t], owner := s.owner[m := t], waiting := s.waiting[t := INVALID_SLOT],
       thr := s.thr[t := Thread(Idle, s.thr[t].held + {m}, s.thr[t].stamp)])
  }

  /** A thread without a lock that finds the lock free, at rest or already inside the real lock: it gets it
      and then stores itself as the owner. */
  lemma FirstLockAlone(c: Config, s: State, t: nat, m: nat) returns (states: seq<State>)
    requires Ledger(c, s) && Shaped(c, s) && !s.exited && t < c.threads && m < c.locks && s.holder[m] == INVALID_SLOT
    requires s.thr[t].held == {} && s.thr[t].pc in {Idle, TopBlocked(m)}
    ensures |states| > 0 && Alone(c, states, t) && states[0] == s && states[|states| - 1] == HoldingToo(s, t, m)
  {
    LedgerOf(c, s, t);
    hide Ledger, Shaped, Step, Alone;
    var s1 := s;
    states := [s];
    AloneStarts(c, s, t);
    if s.thr[t].pc == Idle {
      s1 := At(s, t, TopBlocked(m));
      Goes(c, s, s1, t, m);
      AloneThen(c, states, s1, t);
      states := states + [s1];
    }
    var s2 := Take(s1, t, m, TopLocked(m));
    Goes(c, s1, s2, t, m);
    AloneThen(c, states, s2, t);
    var s3 := Own(s2, t, m);
    Goes(c, s2, s3, t, m);
    AloneThen(c, states + [s2], s3, t);
    states := states + [s2] + [s3];
  }

  /** A thread with locks that finds the lock free, at rest or parked after its walk: it gets it, withdraws
      its announcement if it had made one, and then stores itself as the owner. */
  lemma NestedLockAlone(c: Config, s: State, t: nat, m: nat) returns (states: seq<State>)
    requires Ledger(c, s) && Shaped(c, s) && !s.exited && t < c.threads && m < c.locks && s.holder[m] == INVALID_SLOT
    requires s.thr[t].held != {} && s.thr[t].pc in {Idle, Blocked(m)}
    ensures |states| > 0 && Alone(c, states, t) && states[0] == s && states[|states| - 1] == HoldingToo(s, t, m)
  {
    LedgerOf(c, s, t);
    hide Ledger, Shaped, Step, Alone;
    AloneStarts(c, s, t);
    var waited := s.thr[t].pc != Idle;
    var s1 := Take(s, t, m, Locked(m, waited));
    Goes(c, s, s1, t, m);
    AloneThen(c, [s], s1, t);
    var s2 := if waited then ClearWait(s1, t, m) else At(s1, t, StoreOwner(m));
    Goes(c, s1, s2, t, m);
    AloneThen(c, [s] + [s1], s2, t);
    var s3 := Own(s2, t, m);
    Goes(c, s2, s3, t, m);
    AloneThen(c, [s] + [s1] + [s2], s3, t);
    states := [s] + [s1] + [s2] + [s3];
  }

  lemma AloneStarts(c: Config, s: State, t: nat)
    ensures Alone(c, [s], t)
  {
  }

  /** One step, the ledger included. */
  lemma Goes(c: Config, s: State, s': State, t: nat, m: nat)
    requires Ledger(c, s) && Shaped(c, s) && t < c.threads && m < c.locks && !s.exited
    requires CallStep(c, s, s', t, m) || GrantStep(c, s, s', t) || BookStep(c, s, s', t) || WalkStep(c, s, s', t)
    ensures Step(c, s, s', t) && Ledger(c, s') && Shaped(c, s')
  {
    hide CallStep, GrantStep, BookStep, WalkStep, Ledger;
    StepKeepsLedger(c, s, s', t);
    LedgerShape(c, s');
  }

  /** Unlocking frees the lock and takes back the ownership. */
  lemma UnlockAlone(c: Config, s: State, t: nat, m: nat) returns (states: seq<State>)
    requires Ledger(c, s) && Shaped(c, s) && !s.exited && t < c.threads && m < c.locks
    requires s.thr[t].pc == Idle && m in s.thr[t].held
    ensures |states| > 0 && Alone(c, states, t) && states[0] == s
    ensures states[|states| - 1] ==
            s.(holder := s.holder[m := INVALID_SLOT], owner := s.owner[m := INVALID_SLOT],
               thr := s.thr[t := s.thr[t].(held := s.thr[t].held - {m})])
  {
    assert LockLedger(c, s, m) && s.owner[m] == t;
    hide Ledger;
    var s1 := Free(s, t, m);
    Goes(c, s, s1, t, m);
    AloneThen(c, [s], s1, t);
    var s2 := Disown(s1, t, m);
    Goes(c, s1, s2, t, m);
    AloneThen(c, [s] + [s1], s2, t);
    states := [s] + [s1] + [s2];
  }

  // ---------------------------------------------------------------- the walk on fields that stand still

  /** After `k` links of the walk: the chain so far is that of the fields, and it has not come back. */
  ghost predicate WalkedTo(c: Config, s: State, t: nat, m: nat, k: nat)
    requires Shaped(c, s) && t < c.threads && m < c.locks
  {
    && s.thr[t].pc.WalkOwner? && s.thr[t].pc.m == m && |s.thr[t].pc.locks| == k <= c.threads
    && s.thr[t].pc.cur == WaitWalk.LockAt(s.owner, s.waiting, m, k)
    && ChainOf(s, t, m, k, s.thr[t].pc.threads, s.thr[t].pc.locks)
    && forall i :: 0 <= i < k ==> WaitWalk.OwnerAt(s.owner, s.waiting, m, i) !in {t, INVALID_SLOT}
  }

  /** The first `k` links of the chain from lock `m`. */
  ghost predicate ChainOf(s: State, t: nat, m: nat, k: nat, threads: seq<nat>, locks: seq<nat>)
    requires WaitWalk.InRange(s.owner, s.waiting) && m < |s.owner|
  {
    && |threads| == |locks| + 1 == k + 1 && threads[0] == t
    && forall i :: 0 <= i < k ==>
         && locks[i] == WaitWalk.LockAt(s.owner, s.waiting, m, i)
         && threads[i + 1] == WaitWalk.OwnerAt(s.owner, s.waiting, m, i)
  }

  /** How a walk on these fields must end. */
  ghost predicate WalkEnds(c: Config, s: State, end: State, t: nat, m: nat)
    requires Shaped(c, s) && t < c.threads && m < c.locks
  {
    if WaitWalk.Closes(s.owner, s.waiting, m, t) then
      && end.exited && |end.thr| == |s.thr| && end.thr[t].pc.WalkWaiting?
      && end == At(s, t, end.thr[t].pc).(exited := true)
      && var threads, locks := end.thr[t].pc.threads, end.thr[t].pc.locks;
         && |locks| > 0 && ChainOf(s, t, m, |locks|, threads, locks) && threads[|locks|] == t
    else
      end == At(s, t, Blocked(m))
  }

  lemma AtAt(s: State, t: nat, p: Pc, q: Pc)
    requires t < |s.thr|
    ensures At(At(s, t, p), t, q) == At(s, t, q)
  {
  }

  /** The owner load that ends the walk, if it does. */
  lemma LastOwnerLoad(c: Config, s: State, t: nat, m: nat, k: nat) returns (s': State)
    requires Ledger(c, s) && Shaped(c, s) && !s.exited && t < c.threads && m < c.locks && WalkedTo(c, s, t, m, k)
    requires k >= c.threads || WaitWalk.OwnerAt(s.owner, s.waiting, m, k) in {t, INVALID_SLOT}
    ensures WalkStep(c, s, s', t) && WalkEnds(c, s, s', t, m)
  {
    var pc := s.thr[t].pc;
    WaitWalk.OneLink(s.owner, s.waiting, m, k);
    assert PcInRange(c, t, pc);
    hide Ledger, WaitWalk.LockAt, WaitWalk.OwnerAt, WaitWalk.Closes;
    var o := s.owner[pc.cur];
    if k >= c.threads {
      WaitWalk.BoundSuffices(s.owner, s.waiting, m, t);
      s' := At(s, t, Blocked(m));
    } else if o == INVALID_SLOT {
      WaitWalk.ChainEnded(s.owner, s.waiting, m, t, k);
      s' := At(s, t, Blocked(m));
    } else {
      WaitWalk.ChainCloses(s.owner, s.waiting, m, t, k);
      s' := At(s, t, WalkWaiting(m, pc.threads + [o], pc.locks + [pc.cur])).(exited := true);
    }
  }

  /** An owner load that does not end the walk records one more link. */
  lemma OwnerLoadAlone(c: Config, s: State, t: nat, m: nat, k: nat) returns (s': State)
    requires Ledger(c, s) && Shaped(c, s) && !s.exited && t < c.threads && m < c.locks && WalkedTo(c, s, t, m, k)
    requires k < c.threads && WaitWalk.OwnerAt(s.owner, s.waiting, m, k) !in {t, INVALID_SLOT}
    ensures WalkStep(c, s, s', t) && |s'.thr| == |s.thr| && s'.thr[t].pc.WalkWaiting? && s'.thr[t].pc.m == m
    ensures s' == At(s, t, s'.thr[t].pc) && ChainOf(s, t, m, k + 1, s'.thr[t].pc.threads, s'.thr[t].pc.locks)
    ensures forall i :: 0 <= i < k + 1 ==> WaitWalk.OwnerAt(s.owner, s.waiting, m, i) !in {t, INVALID_SLOT}
  {
    var pc := s.thr[t].pc;
    WaitWalk.OneLink(s.owner, s.waiting, m, k);
    assert PcInRange(c, t, pc);
    hide Ledger, WaitWalk.LockAt, WaitWalk.OwnerAt, WaitWalk.Closes;
    var o := s.owner[pc.cur];
    s' := At(s, t, WalkWaiting(m, pc.threads + [o], pc.locks + [pc.cur]));
  }

  /** The load of what the last thread of the chain waits for: the walk goes on, or it ends. */
  lemma WaitingLoadAlone(c: Config, s: State, t: nat, m: nat, k: nat) returns (s': State)
    requires Shaped(c, s) && !s.exited && t < c.threads && m < c.locks && k < c.threads
    requires s.thr[t].pc.WalkWaiting? && s.thr[t].pc.m == m
    requires ChainOf(s, t, m, k + 1, s.thr[t].pc.threads, s.thr[t].pc.locks)
    requires forall i :: 0 <= i < k + 1 ==> WaitWalk.OwnerAt(s.owner, s.waiting, m, i) !in {t, INVALID_SLOT}
    ensures WalkStep(c, s, s', t) && |s'.thr| == |s.thr| && s' == At(s, t, s'.thr[t].pc)
    ensures Shaped(c, s') ==> WalkedTo(c, s', t, m, k + 1) || WalkEnds(c, s, s', t, m)
  {
    var pc := s.thr[t].pc;
    WaitWalk.OneLink(s.owner, s.waiting, m, k);
    WaitWalk.OneLink(s.owner, s.waiting, m, k + 1);
    hide WaitWalk.LockAt, WaitWalk.OwnerAt, WaitWalk.Closes;
    var w := s.waiting[pc.threads[|pc.threads| - 1]];
    if w == INVALID_SLOT {
      WaitWalk.ChainEnded(s.owner, s.waiting, m, t, k + 1);
      s' := At(s, t, Blocked(m));
    } else {
      s' := At(s, t, WalkOwner(m, w, pc.threads, pc.locks));
    }
  }

  /** One link: an owner load and the load of what that thread waits for. Either the walk goes on from
      `s2`, or it has ended there. */
  lemma OneLinkAlone(c: Config, s: State, t: nat, m: nat, k: nat) returns (s1: State, s2: State)
    requires Ledger(c, s) && Shaped(c, s) && !s.exited && t < c.threads && m < c.locks && WalkedTo(c, s, t, m, k)
    requires k < c.threads && WaitWalk.OwnerAt(s.owner, s.waiting, m, k) !in {t, INVALID_SLOT}
    ensures WalkStep(c, s, s1, t) && Shaped(c, s1) && WalkStep(c, s1, s2, t)
    ensures Ledger(c, s1) && Ledger(c, s2) && Shaped(c, s2) && !s1.exited && !s2.exited
    ensures s2 == At(s, t, s2.thr[t].pc) && (WalkedTo(c, s2, t, m, k + 1) || WalkEnds(c, s, s2, t, m))
  {
    hide Ledger, WalkStep, WaitWalk.LockAt, WaitWalk.OwnerAt, WaitWalk.Closes, WalkEnds, WalkedTo, Shaped;
    s1 := OwnerLoadAlone(c, s, t, m, k);
    WalkKeepsLedger(c, s, s1, t);
    LedgerShape(c, s1);
    s2 := WaitingLoadAlone(c, s1, t, m, k);
    AtAt(s, t, s1.thr[t].pc, s2.thr[t].pc);
    WalkKeepsLedger(c, s1, s2, t);
    LedgerShape(c, s2);
    if WalkEnds(c, s1, s2, t, m) {
      SameEnd(c, s, s1, s2, t, m);
    }
  }

  /** The walk of a thread that runs alone answers what the walk on still fields answers: it reports exactly
      when the chain comes back to the thread, with the chain of the fields, and else the thread goes into
      the real lock. */
  lemma {:induction false} WalkAlone(c: Config, s: State, t: nat, m: nat, k: nat) returns (states: seq<State>)
    requires Ledger(c, s) && Shaped(c, s) && !s.exited && t < c.threads && m < c.locks && WalkedTo(c, s, t, m, k)
    ensures |states| > 0 && Alone(c, states, t) && states[0] == s && WalkEnds(c, s, states[|states| - 1], t, m)
    decreases c.threads - k
  {
    hide Ledger, Step, Alone, WaitWalk.LockAt, WaitWalk.OwnerAt, WalkStep, WalkEnds, WalkedTo;
    AloneStarts(c, s, t);
    if k >= c.threads || WaitWalk.OwnerAt(s.owner, s.waiting, m, k) in {t, INVALID_SLOT} {
      var s' := LastOwnerLoad(c, s, t, m, k);
      Goes(c, s, s', t, m);
      AloneThen(c, [s], s', t);
      states := [s] + [s'];
    } else {
      WalkedWithin(c, s, t, m, k);
      var s1, s2 := OneLinkAlone(c, s, t, m, k);
      Goes(c, s, s1, t, m);
      AloneThen(c, [s], s1, t);
      Goes(c, s1, s2, t, m);
      if WalkEnds(c, s, s2, t, m) {
        AloneThen(c, [s] + [s1], s2, t);
        states := [s] + [s1] + [s2];
      } else {
        var rest := WalkAlone(c, s2, t, m, k + 1);
        SameEnd(c, s, s2, rest[|rest| - 1], t, m);
        AloneBefore(c, s1, rest, t);
        AloneBefore(c, s, [s1] + rest, t);
        states := [s] + ([s1] + rest);
      }
    }
  }

  lemma WalkedWithin(c: Config, s: State, t: nat, m: nat, k: nat)
    requires Shaped(c, s) && t < c.threads && m < c.locks && WalkedTo(c, s, t, m, k)
    ensures k <= c.threads
  {
  }

  lemma SameEnd(c: Config, s: State, s2: State, end: State, t: nat, m: nat)
    requires Shaped(c, s) && Shaped(c, s2) && t < c.threads && m < c.locks
    requires s2 == At(s, t, s2.thr[t].pc) && WalkEnds(c, s2, end, t, m)
    ensures WalkEnds(c, s, end, t, m)
  {
    hide WaitWalk.LockAt, WaitWalk.OwnerAt, WaitWalk.Closes;
    if WaitWalk.Closes(s.owner, s.waiting, m, t) {
      AtAt(s, t, s2.thr[t].pc, end.thr[t].pc);
    } else {
      AtAt(s, t, s2.thr[t].pc, Blocked(m));
    }
  }

  lemma AloneBefore(c: Config, s: State, states: seq<State>, t: nat)
    requires Alone(c, states, t) && Step(c, s, states[0], t)
    ensures Alone(c, [s] + states, t)
  {
    hide Step;
    var longer := [s] + states;
    forall i | 0 <= i < |longer| - 1
      ensures Step(c, longer[i], longer[i + 1], t)
    {
      if i > 0 {
        assert Step(c, states[i - 1], states[i - 1 + 1], t);
      }
    }
  }

  /** A nested lock that finds the mutex held: it announces the lock and walks; it ends the process exactly
      when the chain from that lock, its own announcement included, comes back to it. */
  lemma BusyLockAlone(c: Config, s: State, t: nat, m: nat) returns (states: seq<State>)
    requires Ledger(c, s) && Shaped(c, s) && !s.exited && t < c.threads && m < c.locks
    requires s.thr[t].pc == Idle && s.thr[t].held != {} && s.holder[m] != INVALID_SLOT
    ensures |states| > 0 && Alone(c, states, t) && states[0] == s && |states| > 2 && Shaped(c, states[2])
    ensures states[2] == StoreWait(At(s, t, Busy(m)), t, m)
    ensures states[2].waiting == s.waiting[t := m] && states[2].owner == s.owner
    ensures WalkEnds(c, states[2], states[|states| - 1], t, m)
  {
    hide Ledger, Step, Alone, WalkEnds;
    var s1 := At(s, t, Busy(m));
    Goes(c, s, s1, t, m);
    var s2 := StoreWait(s1, t, m);
    Goes(c, s1, s2, t, m);
    assert WalkedTo(c, s2, t, m, 0);
    var rest := WalkAlone(c, s2, t, m, 0);
    AloneBefore(c, s1, rest, t);
    AloneBefore(c, s, [s1] + rest, t);
    states := [s] + ([s1] + rest);
  }
}
