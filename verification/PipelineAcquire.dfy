/** What one acquisition does in the asynchronous backend when its thread runs alone: the skip test over all
    snapshot words, the start of the worker if nobody has started it, the ring with its full-ring policy,
    and the wakeup. */
module PipelineAcquire {
  import opened Digraph
  import opened Traces
  import opened Pipeline

  /** Producer `t` takes all the steps. */
  ghost predicate Alone(c: Config, states: seq<State>, t: nat) {
    |states| > 0 && forall i :: 0 <= i < |states| - 1 ==> ProducerStep(c, states[i], states[i + 1], t)
  }

  lemma AloneStarts(c: Config, s: State, t: nat)
    ensures Alone(c, [s], t)
  {
  }

  lemma AloneThen(c: Config, states: seq<State>, s: State, t: nat)
    requires Alone(c, states, t) && ProducerStep(c, states[|states| - 1], s, t)
    ensures Alone(c, states + [s], t)
  {
    hide ProducerStep;
    var longer := states + [s];
    forall i | 0 <= i < |longer| - 1
      ensures ProducerStep(c, longer[i], longer[i + 1], t)
    {
      if i < |states| - 1 {
        assert ProducerStep(c, states[i], states[i + 1], t);
      }
    }
  }

  lemma AloneBoth(c: Config, states: seq<State>, more: seq<State>, t: nat)
    requires Alone(c, states, t) && Alone(c, more, t) && states[|states| - 1] == more[0]
    ensures Alone(c, states + more[1..], t)
    ensures (states + more[1..])[0] == states[0]
    ensures (states + more[1..])[|states + more[1..]| - 1] == more[|more| - 1]
  {
    hide ProducerStep;
    var all := states + more[1..];
    forall i | 0 <= i < |all| - 1
      ensures ProducerStep(c, all[i], all[i + 1], t)
    {
      if i < |states| - 1 {
        assert ProducerStep(c, states[i], states[i + 1], t);
      } else {
        var k := i - |states| + 1;
        assert all[i] == more[k] && all[i + 1] == more[k + 1];
        assert ProducerStep(c, more[k], more[k + 1], t);
      }
    }
  }

  ghost function WithProducer(s: State, t: nat, p: Producer): State
    requires t < |s.prods|
  {
    s.(prods := s.prods[t := p])
  }

  // ---------------------------------------------------------------- the skip test

  /** What the loads of the words from `word` on leave of the predecessors. */
  ghost function Unseen(c: Config, p: Producer, word: nat, snapshot: set<Edge>): set<nat> {
    set h | h in p.unknown && !(word <= h / 64 < c.words && (h, Target(p.log)) in snapshot)
  }

  lemma {:induction false} LoadsAlone(c: Config, s: State, t: nat, word: nat) returns (states: seq<State>)
    requires t < |s.prods| == |s.rings| && word <= c.words && s.prods[t].pc == Collect(word)
    ensures |states| > 0 && Alone(c, states, t) && states[0] == s
    ensures var p := s.prods[t];
            states[|states| - 1] ==
            WithProducer(s, t, Producer(Collect(c.words), p.log, Unseen(c, p, word, s.snapshot)))
    decreases c.words - word
  {
    hide ProducerStep, Alone, Target;
    var p := s.prods[t];
    AloneStarts(c, s, t);
    if word == c.words {
      assert Unseen(c, p, word, s.snapshot) == p.unknown;
      states := [s];
    } else {
      var s' := LoadWord(s, t, word);
      var p' := s'.prods[t];
      CollectIsStep(c, s, s', t);
      AloneThen(c, [s], s', t);
      assert Unseen(c, p', word + 1, s'.snapshot) == Unseen(c, p, word, s.snapshot);
      var rest := LoadsAlone(c, s', t, word + 1);
      AloneBoth(c, [s] + [s'], rest, t);
      states := [s] + [s'] + rest[1..];
    }
  }

  lemma CollectIsStep(c: Config, s: State, s': State, t: nat)
    requires t < |s.prods| == |s.rings| && CollectStep(c, s, s', t)
    ensures ProducerStep(c, s, s', t)
  {
  }

  /** The held locks, other than the new one, whose pair with it the snapshot lacks. */
  ghost function Missing(s: State, t: nat, lock: nat): set<nat>
    requires t < |s.prods|
  {
    set h | h in Held(s.prods[t].log) && h != lock && (h, lock) !in s.snapshot
  }

  /** The acquisition up to the skip decision: it returns at once without a held lock, returns after its
      loads if no pair is missing, and else goes on with exactly the missing predecessors. */
  lemma SkipTestAlone(c: Config, s: State, t: nat, lock: nat) returns (states: seq<State>)
    requires t < |s.prods| == |s.rings| && s.prods[t].pc == Idle
    requires forall h :: h in Held(s.prods[t].log) ==> h / 64 < c.words
    ensures |states| > 0 && Alone(c, states, t) && states[0] == s
    ensures var log, missing := s.prods[t].log + [Acquire(lock)], Missing(s, t, lock);
            states[|states| - 1] ==
            WithProducer(s, t, if missing == {} then Producer(Idle, log, {}) else Producer(EnsureLoad, log, missing))
  {
    hide ProducerStep, Alone, Held;
    var p := s.prods[t];
    var log, missing := p.log + [Acquire(lock)], Missing(s, t, lock);
    var s1 := Begin(s, t, Acquire(lock));
    assert CollectStep(c, s, s1, t);
    CollectIsStep(c, s, s1, t);
    AloneStarts(c, s, t);
    AloneThen(c, [s], s1, t);
    states := [s] + [s1];
    if Held(p.log) == [] {
      assert missing == {};
    } else {
      assert Target(s1.prods[t].log) == lock;
      assert Unseen(c, s1.prods[t], 0, s1.snapshot) == missing;
      var loads := LoadsAlone(c, s1, t, 0);
      AloneBoth(c, states, loads, t);
      states := states + loads[1..];
      var s2 := loads[|loads| - 1];
      var s3 := if missing == {} then Finish(s2, t, Idle) else At(s2, t, EnsureLoad);
      CollectIsStep(c, s2, s3, t);
      AloneThen(c, states, s3, t);
      states := states + [s3];
    }
  }

  /** A release only shortens the held stack. */
  lemma ReleaseAlone(c: Config, s: State, t: nat, lock: nat)
    requires t < |s.prods| == |s.rings| && s.prods[t].pc == Idle
    ensures ProducerStep(c, s, WithProducer(s, t, Producer(Idle, s.prods[t].log + [Release(lock)], {})), t)
  {
    assert CollectStep(c, s, Begin(s, t, Release(lock)), t);
  }

  // ---------------------------------------------------------------- starting the worker

  /** Somebody has started the worker: straight on. Nobody has: this thread does, with a fresh semaphore,
      both flags down and the worker at the beginning of its loop. */
  lemma EnsureAlone(c: Config, s: State, t: nat) returns (states: seq<State>)
    requires t < |s.prods| == |s.rings| && s.prods[t].pc == EnsureLoad && (s.started == 0 || s.started == 2)
    ensures |states| > 0 && Alone(c, states, t) && states[0] == s
    ensures var end := At(s, t, CheckFull);
            states[|states| - 1] ==
            if s.started == 2 then end
            else end.(started := 2, starter := t, sem := 0, stop := false, pending := false,
                      worker := Scan(0, false, false))
  {
    hide ProducerStep, Alone;
    AloneStarts(c, s, t);
    if s.started == 2 {
      var s1 := At(s, t, CheckFull);
      RaceIsStep(c, s, s1, t);
      AloneThen(c, [s], s1, t);
      states := [s] + [s1];
    } else {
      var s1 := At(s, t, EnsureCas);
      RaceIsStep(c, s, s1, t);
      AloneThen(c, [s], s1, t);
      var s2 := At(s1, t, InitSem).(started := 1, starter := t);
      RaceIsStep(c, s1, s2, t);
      AloneThen(c, [s] + [s1], s2, t);
      var rest := CreateAlone(c, s2, t);
      AloneBoth(c, [s] + [s1] + [s2], rest, t);
      states := [s] + [s1] + [s2] + rest[1..];
    }
  }

  lemma CreateAlone(c: Config, s: State, t: nat) returns (states: seq<State>)
    requires t < |s.prods| == |s.rings| && s.prods[t].pc == InitSem
    ensures |states| > 0 && Alone(c, states, t) && states[0] == s
    ensures states[|states| - 1] ==
            At(s, t, CheckFull).(started := 2, sem := 0, stop := false, pending := false,
                                 worker := Scan(0, false, false))
  {
    hide ProducerStep, Alone;
    AloneStarts(c, s, t);
    var s1 := At(s, t, StoreStop).(sem := 0);
    CreateIsStep(c, s, s1, t);
    AloneThen(c, [s], s1, t);
    var s2 := At(s1, t, StorePending).(stop := false);
    CreateIsStep(c, s1, s2, t);
    AloneThen(c, [s] + [s1], s2, t);
    var s3 := At(s2, t, CreateWorker).(pending := false);
    CreateIsStep(c, s2, s3, t);
    AloneThen(c, [s] + [s1] + [s2], s3, t);
    var s4 := At(s3, t, StoreReady).(worker := Scan(0, false, false));
    CreateIsStep(c, s3, s4, t);
    AloneThen(c, [s] + [s1] + [s2] + [s3], s4, t);
    var s5 := At(s4, t, CheckFull).(started := 2);
    RaceIsStep(c, s4, s5, t);
    AloneThen(c, [s] + [s1] + [s2] + [s3] + [s4], s5, t);
    states := [s] + [s1] + [s2] + [s3] + [s4] + [s5];
  }

  lemma RaceIsStep(c: Config, s: State, s': State, t: nat)
    requires t < |s.prods| == |s.rings| && RaceStep(s, s', t)
    ensures ProducerStep(c, s, s', t)
  {
  }

  lemma CreateIsStep(c: Config, s: State, s': State, t: nat)
    requires t < |s.prods| == |s.rings| && CreateStep(s, s', t)
    ensures ProducerStep(c, s, s', t)
  {
  }

  // ---------------------------------------------------------------- the ring and the wakeup

  /** One signal: the pending flag is up, and there is one post more if it was down. */
  ghost function Signalled(s: State): State {
    s.(pending := true, sem := if s.pending then s.sem else s.sem + 1)
  }

  lemma SignalAlone(c: Config, s: State, t: nat) returns (states: seq<State>)
    requires t < |s.prods| == |s.rings| && s.prods[t].pc.Xchg?
    ensures |states| > 0 && Alone(c, states, t) && states[0] == s
    ensures states[|states| - 1] == Signalled(At(s, t, if s.prods[t].pc.retry then CheckFull else Idle))
  {
    hide ProducerStep, Alone;
    AloneStarts(c, s, t);
    var retry := s.prods[t].pc.retry;
    var s1 := At(s, t, if s.pending then After(retry) else Post(retry)).(pending := true);
    SignalIsStep(c, s, s1, t);
    AloneThen(c, [s], s1, t);
    states := [s] + [s1];
    if !s.pending {
      var s2 := At(s1, t, After(retry)).(sem := s1.sem + 1);
      SignalIsStep(c, s1, s2, t);
      AloneThen(c, states, s2, t);
      states := states + [s2];
    }
  }

  lemma SignalIsStep(c: Config, s: State, s': State, t: nat)
    requires t < |s.prods| == |s.rings| && SignalStep(s, s', t)
    ensures ProducerStep(c, s, s', t)
  {
  }

  lemma OfferIsStep(c: Config, s: State, s': State, t: nat)
    requires t < |s.prods| == |s.rings| && OfferStep(c, s, s', t)
    ensures ProducerStep(c, s, s', t)
  {
  }

  /** With room in the ring one event with exactly the missing predecessors joins it, and the worker is
      signalled. */
  lemma PublishAlone(c: Config, s: State, t: nat) returns (states: seq<State>)
    requires t < |s.prods| == |s.rings| && s.prods[t].pc == CheckFull && |s.rings[t]| < c.capacity
    ensures |states| > 0 && Alone(c, states, t) && states[0] == s
    ensures var p := s.prods[t];
            states[|states| - 1] ==
            Signalled(WithProducer(s, t, Producer(Idle, p.log, {}))
                      .(rings := s.rings[t := s.rings[t] + [Event(Target(p.log), p.unknown)]]))
  {
    hide ProducerStep, Alone, Target;
    AloneStarts(c, s, t);
    var s1 := At(s, t, Publish);
    OfferIsStep(c, s, s1, t);
    AloneThen(c, [s], s1, t);
    var s2 := PublishEvent(s1, t);
    OfferIsStep(c, s1, s2, t);
    AloneThen(c, [s] + [s1], s2, t);
    var signal := SignalAlone(c, s2, t);
    AloneBoth(c, [s] + [s1] + [s2], signal, t);
    states := [s] + [s1] + [s2] + signal[1..];
  }

  /** With a full ring the worker is signalled; under Drop the pairs are given up and the acquisition is
      over, under Stall the test comes again. */
  lemma FullRingAlone(c: Config, s: State, t: nat) returns (states: seq<State>)
    requires t < |s.prods| == |s.rings| && s.prods[t].pc == CheckFull && |s.rings[t]| >= c.capacity
    ensures |states| > 0 && Alone(c, states, t) && states[0] == s
    ensures var p := s.prods[t];
            states[|states| - 1] ==
            Signalled(if c.policy == Stall then s
                      else WithProducer(s, t, Producer(Idle, p.log, {})).(dropped := s.dropped + InFlight(p)))
  {
    hide ProducerStep, Alone, InFlight;
    AloneStarts(c, s, t);
    var s1 := if c.policy == Stall then At(s, t, Xchg(true))
              else Finish(s, t, Xchg(false)).(dropped := s.dropped + InFlight(s.prods[t]));
    OfferIsStep(c, s, s1, t);
    AloneThen(c, [s], s1, t);
    var signal := SignalAlone(c, s1, t);
    AloneBoth(c, [s] + [s1], signal, t);
    states := [s] + [s1] + signal[1..];
  }

  /** A whole acquisition with a missing pair, room in its ring and the worker started: the event joins the
      ring, the worker is signalled, and nothing else has changed. */
  lemma AcquireAlone(c: Config, s: State, t: nat, lock: nat) returns (states: seq<State>)
    requires t < |s.prods| == |s.rings| && s.prods[t].pc == Idle && s.started == 2 && |s.rings[t]| < c.capacity
    requires Missing(s, t, lock) != {} && forall h :: h in Held(s.prods[t].log) ==> h / 64 < c.words
    ensures |states| > 0 && Alone(c, states, t) && states[0] == s
    ensures states[|states| - 1] ==
            Signalled(WithProducer(s, t, Producer(Idle, s.prods[t].log + [Acquire(lock)], {}))
                      .(rings := s.rings[t := s.rings[t] + [Event(lock, Missing(s, t, lock))]]))
  {
    hide ProducerStep, Alone, Held, Missing;
    var test := SkipTestAlone(c, s, t, lock);
    var s1 := test[|test| - 1];
    var start := EnsureAlone(c, s1, t);
    var s2 := start[|start| - 1];
    var offer := PublishAlone(c, s2, t);
    AloneBoth(c, test, start, t);
    AloneBoth(c, test + start[1..], offer, t);
    states := test + start[1..] + offer[1..];
  }
}
