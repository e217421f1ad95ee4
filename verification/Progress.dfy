/** When the threads of the receive path wait, and that they do not wait for ever. */
module Progress {
  import opened Rings
  import opened Wrappers
  import opened Monitors
  import opened Pipeline

  // ---------- The select thread blocks exactly with a hundred connections ----------

  lemma {:induction false} DistinctFit(flight: seq<Conn>, known: set<Conn>)
    requires forall c :: c in flight ==> c in known && multiset(flight)[c] == 1
    ensures |flight| <= |known|
  {
    if flight != [] {
      var rest, last := flight[..|flight| - 1], flight[|flight| - 1];
      assert flight == rest + [last];
      assert forall c :: c in rest ==> c in flight;
      assert multiset(flight) == multiset(rest) + multiset{last};
      assert last in flight;
      assert last !in multiset(rest);
      assert forall c :: c in rest ==> c in known - {last} && c in multiset(rest);
      DistinctFit(rest, known - {last});
    }
  }

  lemma FlightFits(flags: map<Conn, bool>, refused: set<Conn>, flight: seq<Conn>)
    requires Outstanding(flags, refused, flight)
    ensures |flight| <= |flags|
  {
    forall c | c in flight
      ensures c in flags.Keys && multiset(flight)[c] == 1
    {
      assert c in multiset(flight);
    }
    DistinctFit(flight, flags.Keys);
  }

  lemma FullFlight(s: State)
    requires s.events.ring.Valid() && |s.events.ring.data| == EVENT_QUEUE_SIZE
    requires s.select.Pushing? && s.events.ring.IsFull()
    ensures |InFlight(s)| >= EVENT_QUEUE_SIZE
  {
    assert |s.events.ring.Contents()| == EVENT_QUEUE_SIZE - 1;
  }

  /** The event queue holds distinct connections other than the one being pushed. */
  lemma RoomForPush(s: State)
    requires s.events.ring.Valid() && |s.events.ring.data| == EVENT_QUEUE_SIZE && OneOutstanding(s)
    requires s.select.Pushing? && |s.flags| < EVENT_QUEUE_SIZE
    ensures !s.events.ring.IsFull()
  {
    FlightFits(s.flags, s.refused, InFlight(s));
    if s.events.ring.IsFull() {
      FullFlight(s);
    }
  }

  ghost predicate SelectAwake(s: State) {
    |s.flags| < EVENT_QUEUE_SIZE ==> SELECT !in s.events.pushWait + s.events.pushWoken
  }

  lemma QueueStepsKeepFlags(s: State, step: Step)
    requires Allowed(s, step) && (step.OnEvents? || step.OnRecords? || step.Consume? || step.Test?)
    ensures After(s, step).flags == s.flags
  {
  }

  lemma ConnectionsStay(s: State, step: Step)
    requires Allowed(s, step)
    ensures s.flags.Keys <= After(s, step).flags.Keys
  {
    match step
    case Add(c) =>
    case Clear =>
    case RecvFrom(d, junk) =>
    case _ => QueueStepsKeepFlags(s, step);
  }

  lemma Subset(a: set<Conn>, b: set<Conn>)
    requires a <= b
    ensures |a| <= |b|
  {
    assert b == a + (b - a);
  }

  lemma OtherStepsKeepEvents(s: State, step: Step)
    requires Allowed(s, step) && !step.OnEvents?
    ensures After(s, step).events == s.events
  {
  }

  lemma EventStepKeepsSelectAwake(s: State, e: Event<Conn>)
    requires Allowed(s, OnEvents(e)) && SELECT !in s.events.pushWait + s.events.pushWoken
    requires e.PushSleep? ==> !s.events.ring.IsFull()
    ensures SELECT !in Apply(s.events, e).pushWait + Apply(s.events, e).pushWoken
  {
    match e
    case PushSleep(p) =>
    case _ =>
  }

  lemma StepKeepsSelectAwake(s: State, step: Step)
    requires Pipeline.Inv(s) && SelectAwake(s) && Allowed(s, step)
    ensures SelectAwake(After(s, step))
  {
    ConnectionsStay(s, step);
    Subset(s.flags.Keys, After(s, step).flags.Keys);
    if !step.OnEvents? {
      OtherStepsKeepEvents(s, step);
    } else if |s.flags| < EVENT_QUEUE_SIZE {
      if s.select.Pushing? {
        RoomForPush(s);
      }
      EventStepKeepsSelectAwake(s, step.ev);
      assert After(s, step).events == Apply(s.events, step.ev);
    }
  }

  lemma {:induction false} FollowsKeepsSelectAwake(s: State, steps: seq<Step>, s': State)
    requires Pipeline.Inv(s) && SelectAwake(s) && Follows(s, steps, s')
    ensures SelectAwake(s')
    decreases |steps|
  {
    if steps != [] {
      Pipeline.StepKeepsInv(s, steps[0]);
      StepKeepsSelectAwake(s, steps[0]);
      FollowsKeepsSelectAwake(After(s, steps[0]), steps[1..], s');
    }
  }

  lemma SelectNeverBlocks(recordLength: nat, s: State)
    requires 0 < recordLength <= INT32_MAX && Pipeline.Reachable(recordLength, s)
    requires |s.flags| < 100
    ensures SELECT !in s.events.pushWait
  {
    var callbacks, records, events, steps :|
      |records| == recordLength && |events| == EVENT_QUEUE_SIZE
      && Follows(Pipeline.Init(callbacks, records, events), steps, s);
    InitInv(callbacks, records, events);
    FollowsKeepsSelectAwake(Pipeline.Init(callbacks, records, events), steps, s);
  }

  lemma {:induction false} Extend(s: State, steps: seq<Step>, s': State, step: Step)
    requires Follows(s, steps, s') && Allowed(s', step)
    ensures Follows(s, steps + [step], After(s', step))
    decreases |steps|
  {
    if steps != [] {
      Extend(After(s, steps[0]), steps[1..], s', step);
      assert (steps + [step])[1..] == steps[1..] + [step];
    } else {
      assert ([] + [step])[1..] == [];
    }
  }

  lemma ReachStep(recordLength: nat, s: State, step: Step)
    requires Pipeline.Reachable(recordLength, s) && Allowed(s, step)
    ensures Pipeline.Reachable(recordLength, After(s, step))
  {
    var callbacks, records, events, steps :|
      |records| == recordLength && |events| == EVENT_QUEUE_SIZE
      && Follows(Pipeline.Init(callbacks, records, events), steps, s);
    Extend(Pipeline.Init(callbacks, records, events), steps, s, step);
  }

  /** Nothing has been popped and the select thread is between connections. */
  ghost predicate Backlog(s: State, known: nat, stored: nat) {
    && s.udp.Popping? && s.receive.Fetching? && s.records == Monitors.Init(s.records.ring.data)
    && s.select.Scanning? && s.events.holder == None
    && s.events.pushWait == {} && s.events.popWait == {}
    && |s.events.ring.data| == EVENT_QUEUE_SIZE && s.events.ring.f == stored && s.events.ring.r == 0
    && (forall c: Conn :: c in s.flags <==> c < known)
    && (forall c: Conn :: stored <= c < known ==> s.flags[c])
  }

  lemma {:induction false} ManyConnections(recordLength: nat, n: nat) returns (s: State)
    ensures Pipeline.Reachable(recordLength, s) && Backlog(s, n, 0)
  {
    if n == 0 {
      var records := seq(recordLength, _ => Record(0, []));
      var events := seq(EVENT_QUEUE_SIZE, _ => 0);
      s := Pipeline.Init({}, records, events);
      assert Follows(s, [], s);
    } else {
      var before := ManyConnections(recordLength, n - 1);
      ReachStep(recordLength, before, Add(n - 1));
      s := After(before, Add(n - 1));
    }
  }

  lemma Step1(recordLength: nat, s: State, step: Step) returns (s': State)
    requires Pipeline.Reachable(recordLength, s) && Allowed(s, step)
    ensures Pipeline.Reachable(recordLength, s') && s' == After(s, step)
  {
    ReachStep(recordLength, s, step);
    s' := After(s, step);
  }

  lemma PushOne(recordLength: nat, before: State) returns (s: State)
    requires Pipeline.Reachable(recordLength, before) && before.select.Pushing? && before.events.ring.Valid()
    requires before.events.holder == None && before.events.pushWait == {} && before.events.popWait == {}
    requires !before.events.ring.IsFull()
    ensures Pipeline.Reachable(recordLength, s)
    ensures s == before.(events := s.events, select := Scanning, pushed := s.pushed)
    ensures s.events == before.events.(ring := before.events.ring.Write(before.select.conn).Publish(), pushWoken := s.events.pushWoken)
  {
    s := Step1(recordLength, before, OnEvents(PushOpen(SELECT)));
    s := Step1(recordLength, s, OnEvents(PushWrite(SELECT, before.select.conn)));
    s := Step1(recordLength, s, OnEvents(PushCommit(SELECT, {})));
  }

  lemma Dispatch(recordLength: nat, before: State, n: nat, k: nat) returns (s: State)
    requires Pipeline.Reachable(recordLength, before) && Backlog(before, n, k)
    requires k < n && k + 1 < EVENT_QUEUE_SIZE
    ensures Pipeline.Reachable(recordLength, s) && Backlog(s, n, k + 1)
  {
    s := Step1(recordLength, before, Test(k));
    s := Step1(recordLength, s, Clear);
    s := PushOne(recordLength, s);
  }

  lemma {:induction false} ManyEvents(recordLength: nat, n: nat, k: nat) returns (s: State)
    requires k <= n && k < EVENT_QUEUE_SIZE
    ensures Pipeline.Reachable(recordLength, s) && Backlog(s, n, k)
  {
    if k == 0 {
      s := ManyConnections(recordLength, n);
    } else {
      var before := ManyEvents(recordLength, n, k - 1);
      s := Dispatch(recordLength, before, n, k - 1);
    }
  }

  /** While the udp thread is held up, a hundred ready connections block select_process. */
  lemma SelectBlocks(recordLength: nat) returns (s: State)
    ensures Pipeline.Reachable(recordLength, s) && |s.flags| == EVENT_QUEUE_SIZE
    ensures SELECT in s.events.pushWait
  {
    s := ManyEvents(recordLength, EVENT_QUEUE_SIZE, EVENT_QUEUE_SIZE - 1);
    s := Step1(recordLength, s, Test(EVENT_QUEUE_SIZE - 1));
    s := Step1(recordLength, s, Clear);
    s := Step1(recordLength, s, OnEvents(PushSleep(SELECT)));
    Counting(s.flags.Keys, EVENT_QUEUE_SIZE);
  }

  lemma {:induction false} Counting(keys: set<Conn>, n: nat)
    requires forall c: Conn :: c in keys <==> c < n
    ensures |keys| == n
  {
    if n == 0 {
      assert keys == {};
    } else {
      Counting(keys - {n - 1}, n - 1);
    }
  }

  /** select_process can block on its push exactly when a hundred or more connections
      may have been added. */
  lemma SelectBlocksExactly(recordLength: nat, limit: nat)
    requires 0 < recordLength <= INT32_MAX
    ensures (exists s :: Pipeline.Reachable(recordLength, s) && |s.flags| <= limit && SELECT in s.events.pushWait)
            <==> limit >= 100
  {
    if limit >= EVENT_QUEUE_SIZE {
      var s := SelectBlocks(recordLength);
    } else {
      forall s | Pipeline.Reachable(recordLength, s) && |s.flags| <= limit
        ensures SELECT !in s.events.pushWait
      {
        SelectNeverBlocks(recordLength, s);
      }
    }
  }
}
