/** Progress of the receive path: no reachable state with something in flight is stuck,
    and once the select thread stops dispatching and nobody wakes spuriously, every run
    ends, with both queues drained. */
module Draining {
  import opened Rings
  import opened Wrappers
  import opened Monitors
  import opened Pipeline
  import Progress

  /** The steps that carry something forward: not new connections, not the select thread
      finding another ready connection, not spurious wakeups. */
  predicate Productive(step: Step) {
    match step
    case Add(_) => false
    case Test(_) => false
    case OnEvents(e) => !e.Spurious?
    case OnRecords(e) => !e.Spurious?
    case _ => true
  }

  ghost predicate Drained(s: State)
    requires s.events.ring.Valid() && s.records.ring.Valid()
  {
    && s.select.Scanning? && s.udp.Popping? && s.receive.Fetching?
    && s.events.ring.Contents() == [] && s.records.ring.Contents() == []
    && UDP in s.events.popWait && RECEIVE in s.records.popWait
  }

  ghost predicate Stuck(s: State) {
    forall step :: Productive(step) ==> !Allowed(s, step)
  }

  // ---------- Never stuck while something is in flight ----------

  lemma NextForReceive(s: State) returns (step: Step)
    requires Pipeline.Inv(s) && s.records.holder == None
    requires s.receive.Using? || RECEIVE !in s.records.popWait || !s.records.ring.IsEmpty()
    ensures Productive(step) && Allowed(s, step)
  {
    if s.receive.Using? {
      step := Consume;
    } else if s.records.ring.IsEmpty() {
      step := OnRecords(PopSleep(RECEIVE));
    } else {
      assert RECEIVE !in s.records.popWait || s.records.popWoken == {};
      step := OnRecords(PopTake(RECEIVE, s.records.pushWait));
    }
  }

  lemma NextForUdp(s: State) returns (step: Step)
    requires Pipeline.Inv(s) && |s.records.ring.data| >= 2 && s.events.holder == None
    requires !s.udp.Popping? || UDP !in s.events.popWait || !s.events.ring.IsEmpty()
    ensures Productive(step) && Allowed(s, step)
  {
    match s.udp
    case Receiving(_) => step := RecvFrom(None, []);
    case Ended(true) => step := OnRecords(PushCommit(UDP, s.records.popWait));
    case Ended(false) => step := OnRecords(PushCancel(UDP));
    case Holding(_) =>
      if UDP in s.records.pushWait {
        assert s.records.pushWoken == {};
        step := NextForReceive(s);
      } else if s.records.ring.IsFull() {
        step := OnRecords(PushSleep(UDP));
      } else {
        step := OnRecords(PushOpen(UDP));
      }
    case Popping =>
      if s.events.ring.IsEmpty() {
        step := OnEvents(PopSleep(UDP));
      } else {
        assert UDP !in s.events.popWait || s.events.popWoken == {};
        step := OnEvents(PopTake(UDP, s.events.pushWait));
      }
  }

  lemma NextForSelect(s: State) returns (step: Step)
    requires Pipeline.Inv(s) && |s.records.ring.data| >= 2 && !s.select.Scanning?
    ensures Productive(step) && Allowed(s, step)
  {
    match s.select
    case Clearing(_) => step := Clear;
    case Copying(c) => step := OnEvents(PushWrite(SELECT, c));
    case Copied(_) => step := OnEvents(PushCommit(SELECT, s.events.popWait));
    case Pushing(_) =>
      if SELECT in s.events.pushWait {
        assert s.events.pushWoken == {};
        step := NextForUdp(s);
      } else if s.events.ring.IsFull() {
        step := OnEvents(PushSleep(SELECT));
      } else {
        step := OnEvents(PushOpen(SELECT));
      }
  }

  /** Unless everything has been drained, some thread can make progress. */
  lemma SomeStep(s: State) returns (step: Step)
    requires Pipeline.Inv(s) && |s.records.ring.data| >= 2 && !Drained(s)
    ensures Productive(step) && Allowed(s, step)
  {
    if !s.select.Scanning? {
      step := NextForSelect(s);
    } else if !s.udp.Popping? || UDP !in s.events.popWait || !s.events.ring.IsEmpty() {
      step := NextForUdp(s);
    } else {
      step := NextForReceive(s);
    }
  }

  lemma DrainedIsStuck(s: State)
    requires Pipeline.Inv(s) && Drained(s)
    ensures Stuck(s)
  {
  }

  /** The shape of a stuck state that still holds an event. */
  ghost predicate UdpStranded(s: State) {
    && s.select.Scanning? && s.udp.Holding? && s.receive.Fetching?
    && s.events.holder == None && s.records.holder == None
    && s.events.ring.Valid() && s.events.pushWait == {}
    && UDP in s.records.pushWait && RECEIVE in s.records.popWait
  }

  lemma StrandedIsStuck(s: State)
    requires UdpStranded(s)
    ensures Stuck(s)
  {
  }

  /** With a one-slot receive queue the first datagram stops the udp thread for good. */
  lemma OneSlotGetsStuck() returns (s: State)
    ensures Pipeline.Reachable(1, s) && UdpStranded(s)
  {
    s := Progress.ManyEvents(1, 1, 1);
    Pipeline.ReachableInv(1, s);
    s := Progress.Step1(1, s, OnEvents(PopTake(UDP, {})));
    s := Progress.Step1(1, s, OnRecords(PushSleep(UDP)));
    s := Progress.Step1(1, s, OnRecords(PopSleep(RECEIVE)));
  }

  /** For every length of the receive queue: the reachable states that are stuck are those
      with nothing in flight exactly when the queue has at least two slots. */
  lemma NeverStuckExactly(recordLength: nat)
    requires 0 < recordLength <= INT32_MAX
    ensures (forall s :: Pipeline.Reachable(recordLength, s) ==>
               s.events.ring.Valid() && s.records.ring.Valid() && (Stuck(s) <==> Drained(s)))
            <==> recordLength >= 2
  {
    if recordLength >= 2 {
      forall s | Pipeline.Reachable(recordLength, s)
        ensures s.events.ring.Valid() && s.records.ring.Valid() && (Stuck(s) <==> Drained(s))
      {
        Pipeline.ReachableInv(recordLength, s);
        if Drained(s) {
          DrainedIsStuck(s);
        } else {
          var step := SomeStep(s);
        }
      }
    } else {
      var s := OneSlotGetsStuck();
      StrandedIsStuck(s);
    }
  }

  // ---------- A measure that every productive step lowers ----------

  function SelectWork(pc: SelectPc): nat {
    match pc
    case Scanning => 0
    case Clearing(_) => 14
    case Pushing(_) => 13
    case Copying(_) => 12
    case Copied(_) => 11
  }

  function UdpWork(pc: UdpPc): nat {
    match pc
    case Popping => 0
    case Holding(_) => 7
    case Receiving(_) => 6
    case Ended(_) => 5
  }

  function AwakeWork(s: State): nat {
    (if SELECT in s.events.pushWait then 0 else 1)
    + (if UDP in s.events.popWait || UDP in s.records.pushWait then 0 else 1)
    + (if RECEIVE in s.records.popWait then 0 else 1)
  }

  function Work(s: State): nat
    requires s.events.ring.Valid() && s.records.ring.Valid()
  {
    SelectWork(s.select) + 9 * s.events.ring.Count()
    + UdpWork(s.udp) + 3 * s.records.ring.Count()
    + (if s.receive.Using? then 1 else 0)
    + AwakeWork(s)
  }

  lemma EventStepWakes(s: State, e: Event<Conn>)
    requires QueuesOk(s) && Allowed(s, OnEvents(e)) && !e.Spurious?
    ensures AwakeWork(AfterEvent(s, e)) <=
              AwakeWork(s) + (if e.PushCommit? || e.PopTake? then 1 else if e.PushSleep? || e.PopSleep? then -1 else 0)
  {
  }

  lemma RecordStepWakes(s: State, e: Event<Record>)
    requires QueuesOk(s) && Allowed(s, OnRecords(e)) && !e.Spurious?
    ensures AwakeWork(AfterRecord(s, e)) <=
              AwakeWork(s) + (if e.PushCommit? || e.PopTake? then 1 else if e.PushSleep? || e.PopSleep? then -1 else 0)
  {
  }

  lemma EventStepLowersWork(s: State, e: Event<Conn>)
    requires QueuesOk(s) && Allowed(s, OnEvents(e)) && !e.Spurious?
    ensures AfterEvent(s, e).events.ring.Valid() && Work(AfterEvent(s, e)) < Work(s)
  {
    EventStepWakes(s, e);
    StepCounts(EVENT_CONFIG, s.events, e);
  }

  lemma RecordStepLowersWork(s: State, e: Event<Record>)
    requires QueuesOk(s) && Allowed(s, OnRecords(e)) && !e.Spurious?
    ensures AfterRecord(s, e).records.ring.Valid() && Work(AfterRecord(s, e)) < Work(s)
  {
    RecordStepWakes(s, e);
    StepCounts(RECORD_CONFIG, s.records, e);
  }

  lemma RecvFromLowersWork(s: State, d: Option<Payload>, junk: Payload)
    requires QueuesOk(s) && Allowed(s, RecvFrom(d, junk))
    ensures AfterRecvFrom(s, d, junk).records.ring.Valid() && Work(AfterRecvFrom(s, d, junk)) < Work(s)
  {
    StepCounts(RECORD_CONFIG, s.records, PushWrite(UDP, Filled(s, d, junk)));
  }

  lemma StepLowersWork(s: State, step: Step)
    requires QueuesOk(s) && Allowed(s, step) && Productive(step)
    ensures After(s, step).events.ring.Valid() && After(s, step).records.ring.Valid()
    ensures Work(After(s, step)) < Work(s)
  {
    match step
    case OnEvents(e) => EventStepLowersWork(s, e);
    case OnRecords(e) => RecordStepLowersWork(s, e);
    case RecvFrom(d, junk) => RecvFromLowersWork(s, d, junk);
    case Clear =>
    case Consume =>
  }

  ghost predicate AllProductive(steps: seq<Step>) {
    forall i :: 0 <= i < |steps| ==> Productive(steps[i])
  }

  /** From any state, only so many productive steps are possible. */
  lemma {:induction false} ProductiveRunsEnd(s: State, steps: seq<Step>, s': State)
    requires Pipeline.Inv(s) && Follows(s, steps, s') && AllProductive(steps)
    ensures Pipeline.Inv(s') && |steps| + Work(s') <= Work(s)
    decreases |steps|
  {
    if steps != [] {
      Pipeline.StepKeepsInv(s, steps[0]);
      StepLowersWork(s, steps[0]);
      ProductiveRunsEnd(After(s, steps[0]), steps[1..], s');
    }
  }

  /** When it ends, every event pushed has been served and every datagram received has
      reached its connection's callback. */
  lemma DrainedMeansDelivered(s: State)
    requires Pipeline.Inv(s) && Drained(s)
    ensures Conns(s.finished) == s.pushed
    ensures s.consumed == s.received && s.calls == WithCallback(s.received, s.callbacks)
  {
  }

  /** Every run of productive steps that cannot be continued has delivered everything. */
  lemma QuietPipelineDelivers(recordLength: nat, s: State, steps: seq<Step>, s': State)
    requires 2 <= recordLength <= INT32_MAX && Pipeline.Reachable(recordLength, s)
    requires Follows(s, steps, s') && AllProductive(steps)
    ensures s.events.ring.Valid() && s.records.ring.Valid() && |steps| <= Work(s)
    ensures Stuck(s') ==>
              s'.pushed == Conns(s'.finished) && s'.consumed == Datagrams(s'.finished)
              && s'.calls == WithCallback(Datagrams(s'.finished), s'.callbacks)
  {
    Pipeline.ReachableInv(recordLength, s);
    FollowsKeepsInv(s, steps, s');
    ProductiveRunsEnd(s, steps, s');
    if Drained(s') {
      DrainedMeansDelivered(s');
    } else {
      var step := SomeStep(s');
    }
  }
}
