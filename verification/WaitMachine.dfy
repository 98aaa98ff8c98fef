/** The actual-deadlock detector under concurrency. The real mutex operations and every load and store
    of the bookkeeping are separate steps of an interleaving machine; `holder` is what the mutexes
    themselves know. Mutexes are normal ones and only their holder unlocks them. */
module WaitMachine {
  import opened Slots

  datatype Config = Config(threads: nat, locks: nat)

  /** Where a thread stands.
      `TopBlocked(m)`: inside the real lock, holding nothing. `TopLocked(m)`: got it, owner not stored.
      `Busy(m)`: the nested trylock failed. `WalkOwner`: about to load the owner of `cur`.
      `WalkWaiting`: about to load what the last thread of the chain waits for. `Blocked(m)`: inside the
      real lock after a walk that answered no. `Locked(m, clear)`: got it, nested. `StoreOwner(m)`:
      about to store the owner. `Unlocked(m)`: after the real unlock, before the compare-and-swap. */
  datatype Pc =
    | Idle
    | TopBlocked(m: nat)
    | TopLocked(m: nat)
    | Busy(m: nat)
    | WalkOwner(m: nat, cur: nat, threads: seq<nat>, locks: seq<nat>)
    | WalkWaiting(m: nat, threads: seq<nat>, locks: seq<nat>)
    | Blocked(m: nat)
    | Locked(m: nat, clear: bool)
    | StoreOwner(m: nat)
    | Unlocked(m: nat)

  /** `held` is the content of the held stack. `stamp` is history: when the thread last stored what it
      waits for. */
  datatype Thread = Thread(pc: Pc, held: set<nat>, stamp: nat)

  /** `exited` is set by the thread whose walk answers yes: it ends the process. */
  datatype State = State(holder: seq<int>, owner: seq<int>, waiting: seq<int>, thr: seq<Thread>, clock: nat,
                         exited: bool)

  ghost predicate Init(c: Config, s: State) {
    && |s.holder| == |s.owner| == c.locks && |s.waiting| == |s.thr| == c.threads
    && (forall m :: 0 <= m < c.locks ==> s.holder[m] == s.owner[m] == INVALID_SLOT)
    && (forall t :: 0 <= t < c.threads ==> s.waiting[t] == INVALID_SLOT && s.thr[t].pc == Idle && s.thr[t].held == {})
    && !s.exited
  }

  ghost predicate Shaped(c: Config, s: State) {
    && |s.holder| == |s.owner| == c.locks && |s.waiting| == |s.thr| == c.threads
    && (forall m :: 0 <= m < c.locks ==>
          INVALID_SLOT <= s.holder[m] < c.threads && INVALID_SLOT <= s.owner[m] < c.threads)
    && (forall t :: 0 <= t < c.threads ==> INVALID_SLOT <= s.waiting[t] < c.locks)
    && (forall t :: 0 <= t < c.threads ==>
          PcInRange(c, t, s.thr[t].pc) && forall m :: m in s.thr[t].held ==> m < c.locks)
  }

  /** Lock numbers and chains in a thread's place are in range, and the chain starts with itself. */
  ghost predicate PcInRange(c: Config, t: nat, pc: Pc) {
    && (!pc.Idle? ==> pc.m < c.locks)
    && (pc.WalkOwner? ==> pc.cur < c.locks && ChainInRange(c, t, pc.threads, pc.locks))
    && (pc.WalkWaiting? ==> |pc.locks| > 0 && ChainInRange(c, t, pc.threads, pc.locks))
  }

  ghost predicate ChainInRange(c: Config, t: nat, threads: seq<nat>, locks: seq<nat>) {
    && |threads| == |locks| + 1 && |locks| <= c.threads && threads[0] == t
    && (forall i :: 0 <= i < |threads| ==> threads[i] < c.threads)
    && (forall i :: 0 <= i < |locks| ==> locks[i] < c.locks)
  }

  ghost function At(s: State, t: nat, pc: Pc): State
    requires t < |s.thr|
  {
    s.(thr := s.thr[t := s.thr[t].(pc := pc)])
  }

  ghost function Take(s: State, t: nat, m: nat, pc: Pc): State
    requires t < |s.thr| && m < |s.holder|
  {
    At(s, t, pc).(holder := s.holder[m := t])
  }

  ghost function Free(s: State, t: nat, m: nat): State
    requires t < |s.thr| && m < |s.holder|
  {
    At(s, t, Unlocked(m)).(holder := s.holder[m := INVALID_SLOT])
  }

  /** The application calls lock, trylock or unlock on lock `m`: the first step of each. */
  ghost predicate CallStep(c: Config, s: State, s': State, t: nat, m: nat)
    requires Shaped(c, s) && t < c.threads && m < c.locks
  {
    var th := s.thr[t];
    th.pc == Idle &&
    ((th.held == {} && s' == At(s, t, TopBlocked(m))) ||
     (th.held == {} && s.holder[m] == INVALID_SLOT && s' == Take(s, t, m, TopLocked(m))) ||
     (th.held != {} && s.holder[m] == INVALID_SLOT && s' == Take(s, t, m, Locked(m, false))) ||
     (th.held != {} && s.holder[m] != INVALID_SLOT && s' == At(s, t, Busy(m))) ||
     (m in th.held && s' == Free(s, t, m)))
  }

  /** The real lock returns. */
  ghost predicate GrantStep(c: Config, s: State, s': State, t: nat)
    requires Shaped(c, s) && t < c.threads
  {
    match s.thr[t].pc
    case TopBlocked(m) => s.holder[m] == INVALID_SLOT && s' == Take(s, t, m, TopLocked(m))
    case Blocked(m) => s.holder[m] == INVALID_SLOT && s' == Take(s, t, m, Locked(m, true))
    case _ => false
  }

  ghost function Own(s: State, t: nat, m: nat): State
    requires t < |s.thr| && m < |s.owner|
  {
    s.(owner := s.owner[m := t], thr := s.thr[t := s.thr[t].(pc := Idle, held := s.thr[t].held + {m})])
  }

  ghost function ClearWait(s: State, t: nat, m: nat): State
    requires t < |s.thr| == |s.waiting|
  {
    At(s, t, StoreOwner(m)).(waiting := s.waiting[t := INVALID_SLOT])
  }

  ghost function Disown(s: State, t: nat, m: nat): State
    requires t < |s.thr| && m < |s.owner|
  {
    s.(owner := if s.owner[m] == t then s.owner[m := INVALID_SLOT] else s.owner,
       thr := s.thr[t := s.thr[t].(pc := Idle, held := s.thr[t].held - {m})])
  }

  ghost function StoreWait(s: State, t: nat, m: nat): State
    requires t < |s.thr| == |s.waiting|
  {
    s.(waiting := s.waiting[t := m], clock := s.clock + 1,
       thr := s.thr[t := Thread(WalkOwner(m, m, [t], []), s.thr[t].held, s.clock)])
  }

  /** lockdep_acquire_top_level_mutex_fast, lockdep_acquire_mutex and the release paths: the stores. */
  ghost predicate BookStep(c: Config, s: State, s': State, t: nat)
    requires Shaped(c, s) && t < c.threads
  {
    match s.thr[t].pc
    case TopLocked(m) => s' == Own(s, t, m)
    case Locked(m, clear) =>
      s' == if clear then ClearWait(s, t, m) else At(s, t, StoreOwner(m))
    case StoreOwner(m) => s' == Own(s, t, m)
    case Unlocked(m) => s' == Disown(s, t, m)
    case _ => false
  }

  /** lockdep_before_blocking_mutex_lock: the store, then the walk one load at a time. */
  ghost predicate WalkStep(c: Config, s: State, s': State, t: nat)
    requires Shaped(c, s) && t < c.threads
  {
    match s.thr[t].pc
    case Busy(m) => s' == StoreWait(s, t, m)
    case WalkOwner(m, cur, threads, locks) =>
      var o := s.owner[cur];
      if |locks| >= c.threads || o == INVALID_SLOT then s' == At(s, t, Blocked(m))
      else if o == t then s' == At(s, t, WalkWaiting(m, threads + [o], locks + [cur])).(exited := true)
      else s' == At(s, t, WalkWaiting(m, threads + [o], locks + [cur]))
    case WalkWaiting(m, threads, locks) =>
      var w := s.waiting[threads[|threads| - 1]];
      s' == if w == INVALID_SLOT then At(s, t, Blocked(m)) else At(s, t, WalkOwner(m, w, threads, locks))
    case _ => false
  }

  ghost predicate Step(c: Config, s: State, s': State, t: nat) {
    Shaped(c, s) && t < c.threads && !s.exited &&
    ((exists m: nat :: m < c.locks && CallStep(c, s, s', t, m)) || GrantStep(c, s, s', t) || BookStep(c, s, s', t) ||
        WalkStep(c, s, s', t))
  }

  /** A run, and which thread took each step. */
  ghost predicate Run(c: Config, run: seq<State>, actors: seq<nat>) {
    && |run| == |actors| + 1 && Init(c, run[0])
    && forall i :: 0 <= i < |actors| ==> Step(c, run[i], run[i + 1], actors[i])
  }

  // ---------------------------------------------------------------- the ledger

  /** Between the real lock and the owner store. */
  ghost predicate Acquired(pc: Pc, m: nat) {
    (pc.TopLocked? || pc.Locked? || pc.StoreOwner?) && pc.m == m
  }

  /** Waiting is stored and the real lock has not been granted. */
  ghost predicate Waits(pc: Pc) {
    pc.WalkOwner? || pc.WalkWaiting? || pc.Blocked?
  }

  ghost predicate ReallyHolds(th: Thread, m: nat) {
    (m in th.held && th.pc != Unlocked(m)) || Acquired(th.pc, m)
  }

  ghost function WaitField(pc: Pc): int {
    if Waits(pc) || (pc.Locked? && pc.clear) then pc.m else INVALID_SLOT
  }

  /** How bookkeeping and reality correspond for one thread. */
  ghost predicate ThreadLedger(s: State, t: nat)
    requires t < |s.thr| == |s.waiting|
  {
    var th := s.thr[t];
    && s.waiting[t] == WaitField(th.pc)
    && (forall m :: Acquired(th.pc, m) ==> m !in th.held)
    && (th.pc.Unlocked? ==> th.pc.m in th.held)
    && (Waits(th.pc) || th.pc.Busy? ==> th.held != {})
    && (th.pc.TopBlocked? || th.pc.TopLocked? ==> th.held == {})
    && (Waits(th.pc) ==> th.stamp < s.clock)
  }

  /** The same for one lock. */
  ghost predicate LockLedger(c: Config, s: State, m: nat)
    requires Shaped(c, s) && m < c.locks
  {
    && (forall t: nat :: t < c.threads ==> (s.holder[m] == t <==> ReallyHolds(s.thr[t], m)))
    && (s.owner[m] != INVALID_SLOT ==> m in s.thr[s.owner[m]].held)
    && (forall t: nat :: t < c.threads && m in s.thr[t].held && s.thr[t].pc != Unlocked(m) ==> s.owner[m] == t)
  }

  ghost predicate Ledger(c: Config, s: State) {
    && Shaped(c, s)
    && (forall t :: 0 <= t < c.threads ==> ThreadLedger(s, t))
    && (forall m :: 0 <= m < c.locks ==> LockLedger(c, s, m))
    && (forall t, u :: 0 <= t < u < c.threads && Waits(s.thr[t].pc) && Waits(s.thr[u].pc) ==>
        s.thr[t].stamp != s.thr[u].stamp)
  }

  lemma InitLedger(c: Config, s: State)
    requires Init(c, s)
    ensures Ledger(c, s)
  {
  }

  /** A move that changes neither what the thread holds nor what it waits for. */
  ghost predicate QuietMove(c: Config, t: nat, pc: Pc, pc': Pc) {
    && PcInRange(c, t, pc')
    && !pc.Unlocked? && !pc'.Unlocked?
    && (forall m :: Acquired(pc', m) <==> Acquired(pc, m))
    && WaitField(pc') == WaitField(pc) && (Waits(pc') ==> Waits(pc))
  }

  lemma MoveKeepsLedger(c: Config, s: State, t: nat, pc': Pc, exits: bool)
    requires Ledger(c, s) && t < c.threads && QuietMove(c, t, s.thr[t].pc, pc') && (pc'.Busy? ==> s.thr[t].held != {})
    requires pc'.TopBlocked? || pc'.TopLocked? ==> s.thr[t].held == {}
    ensures Ledger(c, At(s, t, pc').(exited := exits))
  {
    var s' := At(s, t, pc').(exited := exits);
    assert ThreadLedger(s, t);
    forall k | 0 <= k < c.locks
      ensures LockLedger(c, s', k)
    {
      assert LockLedger(c, s, k);
    }
    forall u | 0 <= u < c.threads
      ensures ThreadLedger(s', u)
    {
      assert ThreadLedger(s, u);
    }
  }

  lemma TakeKeepsLedger(c: Config, s: State, t: nat, m: nat, pc': Pc)
    requires Ledger(c, s) && t < c.threads && m < c.locks && s.holder[m] == INVALID_SLOT
    requires s.thr[t].pc.Idle? || s.thr[t].pc.TopBlocked? || s.thr[t].pc.Blocked?
    requires PcInRange(c, t, pc') && Acquired(pc', m) && WaitField(pc') == WaitField(s.thr[t].pc)
    requires pc'.TopLocked? ==> s.thr[t].held == {}
    ensures Ledger(c, Take(s, t, m, pc'))
  {
    var s' := Take(s, t, m, pc');
    assert ThreadLedger(s, t) && LockLedger(c, s, m);
    forall k | 0 <= k < c.locks
      ensures LockLedger(c, s', k)
    {
      assert LockLedger(c, s, k);
    }
    forall u | 0 <= u < c.threads
      ensures ThreadLedger(s', u)
    {
      assert ThreadLedger(s, u);
    }
  }

  lemma FreeKeepsLedger(c: Config, s: State, t: nat, m: nat)
    requires Ledger(c, s) && t < c.threads && m < c.locks && s.thr[t].pc == Idle && m in s.thr[t].held
    ensures Ledger(c, Free(s, t, m))
  {
    var s' := Free(s, t, m);
    assert ThreadLedger(s, t) && LockLedger(c, s, m);
    forall k | 0 <= k < c.locks
      ensures LockLedger(c, s', k)
    {
      assert LockLedger(c, s, k);
    }
    forall u | 0 <= u < c.threads
      ensures ThreadLedger(s', u)
    {
      assert ThreadLedger(s, u);
    }
  }

  lemma OwnLock(c: Config, s: State, t: nat, m: nat, k: nat)
    requires Ledger(c, s) && t < c.threads && m < c.locks && k < c.locks && Shaped(c, Own(s, t, m))
    requires s.thr[t].pc == TopLocked(m) || s.thr[t].pc == StoreOwner(m)
    ensures LockLedger(c, Own(s, t, m), k)
  {
    assert ThreadLedger(s, t) && LockLedger(c, s, k);
    if k == m {
      OnlyHolder(c, s, t, m);
    }
  }

  /** Only the real holder stores itself as owner, and it overwrites at most a thread on its way out. */
  lemma OwnKeepsLedger(c: Config, s: State, t: nat, m: nat)
    requires Ledger(c, s) && t < c.threads && m < c.locks
    requires s.thr[t].pc == TopLocked(m) || s.thr[t].pc == StoreOwner(m)
    ensures Ledger(c, Own(s, t, m))
  {
    var s' := Own(s, t, m);
    assert ThreadLedger(s, t) && Shaped(c, s');
    forall k | 0 <= k < c.locks
      ensures LockLedger(c, s', k)
    {
      OwnLock(c, s, t, m, k);
    }
    forall u | 0 <= u < c.threads
      ensures ThreadLedger(s', u)
    {
      assert ThreadLedger(s, u);
    }
  }

  /** If one thread really holds a lock, no other does. */
  lemma OnlyHolder(c: Config, s: State, t: nat, m: nat)
    requires Ledger(c, s) && t < c.threads && m < c.locks && ReallyHolds(s.thr[t], m)
    ensures s.holder[m] == t && forall u: nat :: u < c.threads && u != t ==> !ReallyHolds(s.thr[u], m)
  {
    assert LockLedger(c, s, m);
  }

  lemma ClearWaitKeepsLedger(c: Config, s: State, t: nat, m: nat)
    requires Ledger(c, s) && t < c.threads && s.thr[t].pc == Locked(m, true)
    ensures Ledger(c, ClearWait(s, t, m))
  {
    var s' := ClearWait(s, t, m);
    assert ThreadLedger(s, t);
    forall k | 0 <= k < c.locks
      ensures LockLedger(c, s', k)
    {
      assert LockLedger(c, s, k);
    }
    forall u | 0 <= u < c.threads
      ensures ThreadLedger(s', u)
    {
      assert ThreadLedger(s, u);
    }
  }

  lemma DisownLock(c: Config, s: State, t: nat, m: nat, k: nat)
    requires Ledger(c, s) && t < c.threads && s.thr[t].pc == Unlocked(m) && k < c.locks && Shaped(c, Disown(s, t, m))
    ensures LockLedger(c, Disown(s, t, m), k)
  {
    assert ThreadLedger(s, t) && LockLedger(c, s, k);
  }

  /** A late compare-and-swap never erases the next holder. */
  lemma DisownKeepsLedger(c: Config, s: State, t: nat, m: nat)
    requires Ledger(c, s) && t < c.threads && s.thr[t].pc == Unlocked(m)
    ensures Ledger(c, Disown(s, t, m))
  {
    var s' := Disown(s, t, m);
    assert ThreadLedger(s, t) && Shaped(c, s');
    forall k | 0 <= k < c.locks
      ensures LockLedger(c, s', k)
    {
      DisownLock(c, s, t, m, k);
    }
    forall u | 0 <= u < c.threads
      ensures ThreadLedger(s', u)
    {
      assert ThreadLedger(s, u);
    }
  }

  lemma StoreWaitKeepsLedger(c: Config, s: State, t: nat, m: nat)
    requires Ledger(c, s) && t < c.threads && s.thr[t].pc == Busy(m)
    ensures Ledger(c, StoreWait(s, t, m))
  {
    var s' := StoreWait(s, t, m);
    assert ThreadLedger(s, t);
    forall k | 0 <= k < c.locks
      ensures LockLedger(c, s', k)
    {
      assert LockLedger(c, s, k);
    }
    forall u | 0 <= u < c.threads
      ensures ThreadLedger(s', u) && (u != t && Waits(s.thr[u].pc) ==> s.thr[u].stamp < s.clock)
    {
      assert ThreadLedger(s, u);
    }
  }

  lemma CallKeepsLedger(c: Config, s: State, s': State, t: nat, m: nat)
    requires Shaped(c, s) && Ledger(c, s) && t < c.threads && m < c.locks && CallStep(c, s, s', t, m) && !s.exited
    ensures Ledger(c, s')
  {
    hide Ledger, Take, Free;
    var th := s.thr[t];
    if th.held == {} && s' == At(s, t, TopBlocked(m)) {
      MoveKeepsLedger(c, s, t, TopBlocked(m), false);
    } else if th.held == {} && s.holder[m] == INVALID_SLOT && s' == Take(s, t, m, TopLocked(m)) {
      TakeKeepsLedger(c, s, t, m, TopLocked(m));
    } else if th.held != {} && s.holder[m] == INVALID_SLOT && s' == Take(s, t, m, Locked(m, false)) {
      TakeKeepsLedger(c, s, t, m, Locked(m, false));
    } else if th.held != {} && s.holder[m] != INVALID_SLOT && s' == At(s, t, Busy(m)) {
      MoveKeepsLedger(c, s, t, Busy(m), false);
    } else {
      FreeKeepsLedger(c, s, t, m);
    }
  }

  lemma LedgerOf(c: Config, s: State, t: nat)
    requires Ledger(c, s) && t < c.threads
    ensures Shaped(c, s) && ThreadLedger(s, t)
  {
  }

  lemma GrantKeepsLedger(c: Config, s: State, s': State, t: nat)
    requires Shaped(c, s) && Ledger(c, s) && t < c.threads && GrantStep(c, s, s', t)
    ensures Ledger(c, s')
  {
    hide Ledger, Take;
    var m := s.thr[t].pc.m;
    assert PcInRange(c, t, s.thr[t].pc);
    LedgerOf(c, s, t);
    TakeKeepsLedger(c, s, t, m, if s.thr[t].pc.TopBlocked? then TopLocked(m) else Locked(m, true));
  }

  lemma BookKeepsLedger(c: Config, s: State, s': State, t: nat)
    requires Shaped(c, s) && Ledger(c, s) && t < c.threads && BookStep(c, s, s', t) && !s.exited
    ensures Ledger(c, s')
  {
    hide Ledger, Own, ClearWait, Disown;
    assert PcInRange(c, t, s.thr[t].pc);
    match s.thr[t].pc
    case Locked(m, clear) =>
      if clear {
        ClearWaitKeepsLedger(c, s, t, m);
      } else {
        MoveKeepsLedger(c, s, t, StoreOwner(m), false);
      }
    case Unlocked(m) => DisownKeepsLedger(c, s, t, m);
    case TopLocked(m) => OwnKeepsLedger(c, s, t, m);
    case StoreOwner(m) => OwnKeepsLedger(c, s, t, m);
  }

  lemma WalkKeepsLedger(c: Config, s: State, s': State, t: nat)
    requires Shaped(c, s) && Ledger(c, s) && t < c.threads && WalkStep(c, s, s', t) && !s.exited
    ensures Ledger(c, s')
  {
    hide Ledger, StoreWait;
    assert PcInRange(c, t, s.thr[t].pc);
    if s.thr[t].pc.Busy? {
      StoreWaitKeepsLedger(c, s, t, s.thr[t].pc.m);
    } else {
      MoveKeepsLedger(c, s, t, s'.thr[t].pc, s'.exited);
    }
  }

  lemma StepKeepsLedger(c: Config, s: State, s': State, t: nat)
    requires Shaped(c, s) && Ledger(c, s) && Step(c, s, s', t)
    ensures Ledger(c, s')
  {
    hide Ledger, CallStep, GrantStep, BookStep, WalkStep;
    if m: nat :| m < c.locks && CallStep(c, s, s', t, m) {
      CallKeepsLedger(c, s, s', t, m);
    } else if GrantStep(c, s, s', t) {
      GrantKeepsLedger(c, s, s', t);
    } else if BookStep(c, s, s', t) {
      BookKeepsLedger(c, s, s', t);
    } else {
      WalkKeepsLedger(c, s, s', t);
    }
  }

  lemma {:induction false} RunKeepsLedger(c: Config, run: seq<State>, actors: seq<nat>)
    requires Run(c, run, actors)
    ensures Ledger(c, run[|run| - 1])
  {
    hide Ledger, Init, Step;
    var n := |actors|;
    if n == 0 {
      InitLedger(c, run[0]);
    } else {
      RunKeepsLedger(c, run[..n], actors[..n - 1]);
      assert Step(c, run[n - 1], run[n - 1 + 1], actors[n - 1]);
      StepShape(c, run[n - 1], run[n], actors[n - 1]);
      StepKeepsLedger(c, run[n - 1], run[n], actors[n - 1]);
    }
  }

  lemma StepShape(c: Config, s: State, s': State, t: nat)
    requires Step(c, s, s', t)
    ensures Shaped(c, s) && !s.exited
  {
  }

  // ---------------------------------------------------------------- main result 1: ownership

  /** In every reachable state: the real holder, once it has stored itself, is the recorded owner;
      otherwise the recorded owner is nobody, or a thread between its real unlock of this lock and its
      compare-and-swap. */
  lemma OwnerIsExact(c: Config, run: seq<State>, actors: seq<nat>, m: nat)
    requires Run(c, run, actors) && m < c.locks && Shaped(c, run[|run| - 1])
    ensures var s := run[|run| - 1];
            if s.holder[m] != INVALID_SLOT && m in s.thr[s.holder[m]].held then s.owner[m] == s.holder[m]
            else s.owner[m] == INVALID_SLOT || s.thr[s.owner[m]].pc == Unlocked(m)
  {
    RunKeepsLedger(c, run, actors);
    var s := run[|run| - 1];
    assert LockLedger(c, s, m);
    if s.holder[m] != INVALID_SLOT {
      assert ReallyHolds(s.thr[s.holder[m]], m);
      assert ThreadLedger(s, s.holder[m]);
    }
    if s.owner[m] != INVALID_SLOT {
      assert m in s.thr[s.owner[m]].held;
    }
  }
}
