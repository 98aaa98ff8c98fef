/** No ring ever holds more than its capacity: between a producer's test of its ring and the
    publication the worker can only make more room. */
module PipelineRoom {
  import opened Pipeline

  ghost predicate RoomInv(c: Config, s: State) {
    && |s.prods| == |s.rings| == c.threads
    && forall t :: 0 <= t < c.threads ==>
         |s.rings[t]| <= c.capacity && (s.prods[t].pc.Publish? ==> |s.rings[t]| < c.capacity)
  }

  /** One producer moves, not onto the publication, and no ring grows. */
  lemma QuietKeepsRoom(c: Config, s: State, s': State, t: nat)
    requires RoomInv(c, s) && t < c.threads == |s'.prods| && s'.rings == s.rings
    requires forall u :: 0 <= u < c.threads && u != t ==> s'.prods[u] == s.prods[u]
    requires !s'.prods[t].pc.Publish?
    ensures RoomInv(c, s')
  {
  }

  lemma CollectKeepsRoom(c: Config, s: State, s': State, t: nat)
    requires RoomInv(c, s) && t < c.threads && CollectStep(c, s, s', t)
    ensures RoomInv(c, s')
  {
    if s.prods[t].pc == Idle {
      var op :| s' == Begin(s, t, op);
    }
    QuietKeepsRoom(c, s, s', t);
  }

  lemma OfferKeepsRoom(c: Config, s: State, s': State, t: nat)
    requires RoomInv(c, s) && t < c.threads && OfferStep(c, s, s', t)
    ensures RoomInv(c, s')
  {
  }

  lemma RaceKeepsRoom(c: Config, s: State, s': State, t: nat)
    requires RoomInv(c, s) && t < c.threads && RaceStep(s, s', t)
    ensures RoomInv(c, s')
  {
    QuietKeepsRoom(c, s, s', t);
  }

  lemma CreateKeepsRoom(c: Config, s: State, s': State, t: nat)
    requires RoomInv(c, s) && t < c.threads && CreateStep(s, s', t)
    ensures RoomInv(c, s')
  {
    QuietKeepsRoom(c, s, s', t);
  }

  lemma SignalKeepsRoom(c: Config, s: State, s': State, t: nat)
    requires RoomInv(c, s) && t < c.threads && SignalStep(s, s', t)
    ensures RoomInv(c, s')
  {
    QuietKeepsRoom(c, s, s', t);
  }

  lemma WorkerKeepsRoom(c: Config, s: State, s': State)
    requires RoomInv(c, s) && (ScanStep(s, s') || InsertStep(s, s') || FlagStep(s, s') || StopStep(s, s'))
    ensures RoomInv(c, s')
  {
    hide EventEdges, InsertOne;
    if InsertStep(s, s') {
      InsertTouchesNoRing(s, s');
    }
  }

  lemma InsertTouchesNoRing(s: State, s': State)
    requires InsertStep(s, s')
    ensures s'.prods == s.prods && s'.rings == s.rings
  {
  }

  lemma NextKeepsRoom(c: Config, s: State, s': State)
    requires RoomInv(c, s) && Next(c, s, s')
    ensures RoomInv(c, s')
  {
    hide CollectStep, OfferStep, RaceStep, CreateStep, SignalStep, ScanStep, InsertStep, FlagStep, StopStep, Published;
    if t :| ProducerStep(c, s, s', t) {
      if CollectStep(c, s, s', t) {
        CollectKeepsRoom(c, s, s', t);
      } else if OfferStep(c, s, s', t) {
        OfferKeepsRoom(c, s, s', t);
      } else if RaceStep(s, s', t) {
        RaceKeepsRoom(c, s, s', t);
      } else if CreateStep(s, s', t) {
        CreateKeepsRoom(c, s, s', t);
      } else {
        SignalKeepsRoom(c, s, s', t);
      }
    } else if WorkerStep(s, s') {
      WorkerKeepsRoom(c, s, s');
    }
  }

  lemma {:induction false} RingsNeverOverflow(c: Config, run: seq<State>)
    requires Run(c, run)
    ensures RoomInv(c, run[|run| - 1])
  {
    hide Next, RoomInv;
    if |run| == 1 {
      assert RoomInv(c, run[0]) by {
        InitRoom(c, run[0]);
      }
    } else {
      RingsNeverOverflow(c, run[..|run| - 1]);
      assert Next(c, run[|run| - 2], run[|run| - 2 + 1]);
      NextKeepsRoom(c, run[|run| - 2], run[|run| - 1]);
    }
  }

  lemma InitRoom(c: Config, s: State)
    requires Init(c, s)
    ensures RoomInv(c, s)
  {
  }
}
