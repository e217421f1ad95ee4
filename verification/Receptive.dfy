/** The receive path refuses nothing that the code would do: every thread can take its next
    step with whatever the environment chooses, and every sequence of datagrams can reach
    the callbacks. */
module Receptive {
  import opened Rings
  import opened Wrappers
  import opened Monitors
  import opened Pipeline
  import Progress

  // ---------- No step is refused ----------

  /** What lets the threads take their steps. */
  ghost predicate Placed(s: State) {
    && s.events.ring.Valid() && |s.events.ring.data| == 100 && s.records.ring.Valid()
    && (s.select.Pushing? ==> s.events.holder == None)
    && (s.select.Copying? || s.select.Copied? ==> s.events.holder == Some(SELECT))
    && (s.udp.Receiving? ==> s.udp.slot < |s.events.ring.data|)
    && (s.udp.Receiving? || s.udp.Ended? ==> s.records.holder == Some(UDP))
    && (s.receive.Using? ==> s.receive.slot < |s.records.ring.data|)
  }

  lemma QueuesPlace(s: State)
    requires QueuesOk(s)
    ensures Placed(s)
  {
    assert AtMostOne(EVENT_CONFIG.consumers) && AtMostOne(RECORD_CONFIG.consumers);
  }

  lemma ReachablePlaced(recordLength: nat, s: State)
    requires 0 < recordLength <= INT32_MAX && Pipeline.Reachable(recordLength, s)
    ensures Placed(s) && |s.records.ring.data| == recordLength
  {
    Pipeline.ReachableInv(recordLength, s);
    QueuesPlace(s);
  }

  /** A thread outside the locks is never held up, and recvfrom may return anything. */
  lemma FreeSteps(recordLength: nat, s: State)
    requires 0 < recordLength <= INT32_MAX && Pipeline.Reachable(recordLength, s)
    ensures s.udp.Receiving? ==> forall d, junk :: Allowed(s, RecvFrom(d, junk))
    ensures s.receive.Using? ==> Allowed(s, Consume)
    ensures s.select.Clearing? ==> Allowed(s, Clear)
    ensures s.select.Scanning? ==> forall c :: if c in s.flags then s.flags[c] ==> Allowed(s, Test(c)) else Allowed(s, Add(c))
  {
    ReachablePlaced(recordLength, s);
  }

  /** The select thread pushes as soon as there is room, whichever of the sleepers its signal
      reaches, and otherwise goes to sleep. */
  lemma SelectPushes(recordLength: nat, s: State)
    requires 0 < recordLength <= INT32_MAX && Pipeline.Reachable(recordLength, s)
    ensures s.events.ring.Valid()
    ensures s.select.Pushing? && SELECT !in s.events.pushWait ==>
              Allowed(s, OnEvents(if |s.events.ring.Contents()| < 99 then PushOpen(SELECT) else PushSleep(SELECT)))
    ensures s.select.Copying? ==> Allowed(s, OnEvents(PushWrite(SELECT, s.select.conn)))
    ensures s.select.Copied? ==>
              forall woken :: Signals(s.events.popWait, woken) ==> Allowed(s, OnEvents(PushCommit(SELECT, woken)))
  {
    ReachablePlaced(recordLength, s);
    s.events.ring.CountIsModular();
  }

  /** So does the udp thread, once the mutex is free; a failed recvfrom ends its push. */
  lemma UdpPushes(recordLength: nat, s: State)
    requires 0 < recordLength <= INT32_MAX && Pipeline.Reachable(recordLength, s)
    ensures s.records.ring.Valid()
    ensures s.udp.Holding? && UDP !in s.records.pushWait && s.records.holder == None ==>
              Allowed(s, OnRecords(if |s.records.ring.Contents()| < recordLength - 1 then PushOpen(UDP) else PushSleep(UDP)))
    ensures s.udp.Ended? && s.udp.ok ==>
              forall woken :: Signals(s.records.popWait, woken) ==> Allowed(s, OnRecords(PushCommit(UDP, woken)))
    ensures s.udp.Ended? && !s.udp.ok ==> Allowed(s, OnRecords(PushCancel(UDP)))
  {
    ReachablePlaced(recordLength, s);
    s.records.ring.CountIsModular();
  }

  /** A thread that pops takes the oldest item as soon as there is one and the mutex is free,
      and otherwise goes to sleep. */
  lemma WorkersPop(recordLength: nat, s: State)
    requires 0 < recordLength <= INT32_MAX && Pipeline.Reachable(recordLength, s)
    ensures s.events.ring.Valid() && s.records.ring.Valid()
    ensures s.udp.Popping? && UDP !in s.events.popWait && s.events.holder == None ==>
              if s.events.ring.Contents() == [] then Allowed(s, OnEvents(PopSleep(UDP)))
              else forall woken :: Signals(s.events.pushWait, woken) ==> Allowed(s, OnEvents(PopTake(UDP, woken)))
    ensures s.receive.Fetching? && RECEIVE !in s.records.popWait && s.records.holder == None ==>
              if s.records.ring.Contents() == [] then Allowed(s, OnRecords(PopSleep(RECEIVE)))
              else forall woken :: Signals(s.records.pushWait, woken) ==> Allowed(s, OnRecords(PopTake(RECEIVE, woken)))
  {
    ReachablePlaced(recordLength, s);
    s.events.ring.CountIsModular();
    s.records.ring.CountIsModular();
  }

  lemma Wakes<T>(cfg: Config, m: Monitor<T>, t: Tid)
    requires cfg.Valid() && WellFormed(cfg, m) && t in m.pushWait + m.popWait
    ensures Enabled(cfg, m, Spurious(t))
    ensures var m' := Apply(m, Spurious(t)); t !in m'.pushWait + m'.popWait && t in m'.pushWoken + m'.popWoken
  {
  }

  /** Any sleeping thread may wake up spuriously at any time. */
  lemma SleepersMayWake(recordLength: nat, s: State, t: Tid)
    requires 0 < recordLength <= INT32_MAX && Pipeline.Reachable(recordLength, s)
    ensures t in s.events.pushWait + s.events.popWait ==>
              Allowed(s, OnEvents(Spurious(t)))
              && var m := After(s, OnEvents(Spurious(t))).events; t !in m.pushWait + m.popWait && t in m.pushWoken + m.popWoken
    ensures t in s.records.pushWait + s.records.popWait ==>
              Allowed(s, OnRecords(Spurious(t)))
              && var m := After(s, OnRecords(Spurious(t))).records; t !in m.pushWait + m.popWait && t in m.pushWoken + m.popWoken
  {
    Pipeline.ReachableInv(recordLength, s);
    if t in s.events.pushWait + s.events.popWait {
      Wakes(EVENT_CONFIG, s.events, t);
    }
    if t in s.records.pushWait + s.records.popWait {
      Wakes(RECORD_CONFIG, s.records, t);
    }
  }

  // ---------- What reaches the callbacks ----------

  lemma {:induction false} CallsOf(records: seq<Record>, callbacks: set<Conn>, record: Record)
    ensures multiset(WithCallback(records, callbacks))[record]
            == if record.conn in callbacks then multiset(records)[record] else 0
    ensures (forall r :: r in records ==> r.conn in callbacks) ==> WithCallback(records, callbacks) == records
  {
    if records != [] {
      var rest, last := records[..|records| - 1], records[|records| - 1];
      assert records == rest + [last];
      CallsOf(rest, callbacks, record);
    }
  }

  lemma {:induction false} DatagramsOf(outcomes: seq<Outcome>, c: Conn, p: Payload)
    ensures multiset(Datagrams(outcomes))[Record(c, p)] == multiset(outcomes)[Outcome(c, Some(p))]
  {
    if outcomes != [] {
      var rest, last := outcomes[..|outcomes| - 1], outcomes[|outcomes| - 1];
      assert outcomes == rest + [last];
      DatagramsOf(rest, c, p);
    }
  }

  /** A datagram is received as often as recvfrom returned it, and reaches its connection's
      callback as often as it was consumed, if there is a callback. */
  lemma CountedThrough(recordLength: nat, s: State, c: Conn, p: Payload)
    requires 0 < recordLength <= INT32_MAX && Pipeline.Reachable(recordLength, s)
    ensures multiset(s.received)[Record(c, p)] == multiset(s.finished)[Outcome(c, Some(p))]
    ensures multiset(s.calls)[Record(c, p)] == if c in s.callbacks then multiset(s.consumed)[Record(c, p)] else 0
    ensures (forall r :: r in s.consumed ==> r.conn in s.callbacks) ==> s.calls == s.consumed
  {
    Pipeline.ReachableInv(recordLength, s);
    DatagramsOf(s.finished, c, p);
    CallsOf(s.consumed, s.callbacks, Record(c, p));
  }

  // ---------- Any sequence of datagrams can be delivered ----------

  /** Nobody sleeps or holds a mutex, both queues are empty and all flags are set. */
  ghost predicate Idle(s: State) {
    && s.select.Scanning? && s.udp.Popping? && s.receive.Fetching?
    && Quiet(s.events) && |s.events.ring.data| == EVENT_QUEUE_SIZE && s.events.ring.IsEmpty()
    && Quiet(s.records) && |s.records.ring.data| >= 2 && s.records.ring.IsEmpty()
    && forall c :: c in s.flags ==> s.flags[c]
  }

  ghost predicate Quiet<T>(m: Monitor<T>) {
    m.ring.Valid() && m.holder == None && m.pushWait == {} && m.popWait == {}
  }

  /** The same state but for the queue of events, the flags and what was pushed. */
  ghost predicate Dispatched(before: State, s: State, c: Conn)
    requires before.events.ring.Valid()
  {
    && s == before.(events := s.events, flags := s.flags, pushed := s.pushed)
    && Quiet(s.events) && s.events.ring == before.events.ring.Write(c).Publish()
    && s.flags == before.flags[c := false]
  }

  lemma AddUnknown(recordLength: nat, before: State, c: Conn) returns (s: State)
    requires Pipeline.Reachable(recordLength, before) && Idle(before)
    ensures Pipeline.Reachable(recordLength, s) && s == before.(flags := before.flags[c := true])
  {
    s := before;
    if c !in s.flags {
      s := Progress.Step1(recordLength, s, Add(c));
    } else {
      assert before.flags[c := true] == before.flags;
    }
  }

  lemma DispatchKnown(recordLength: nat, before: State, c: Conn) returns (s: State)
    requires Pipeline.Reachable(recordLength, before) && Idle(before) && c in before.flags
    ensures Pipeline.Reachable(recordLength, s) && Dispatched(before, s, c)
  {
    s := Progress.Step1(recordLength, before, Test(c));
    s := Progress.Step1(recordLength, s, Clear);
    s := Progress.PushOne(recordLength, s);
  }

  lemma DispatchOne(recordLength: nat, before: State, c: Conn) returns (s: State)
    requires Pipeline.Reachable(recordLength, before) && Idle(before)
    ensures Pipeline.Reachable(recordLength, s) && Dispatched(before, s, c)
  {
    var known := AddUnknown(recordLength, before, c);
    s := DispatchKnown(recordLength, known, c);
    assert before.flags[c := true][c := false] == before.flags[c := false];
  }

  /** The udp thread has served the one event and published its datagram. */
  ghost predicate Published(before: State, s: State, record: Record)
    requires before.records.ring.Valid()
  {
    && s == before.(events := s.events, records := s.records, flags := s.flags, pushed := s.pushed,
                    finished := s.finished, received := s.received)
    && Quiet(s.events) && s.events.ring.IsEmpty() && |s.events.ring.data| == EVENT_QUEUE_SIZE
    && Quiet(s.records) && s.records.ring == before.records.ring.Write(record).Publish()
    && s.flags == before.flags[record.conn := true]
    && s.received == before.received + [record]
  }

  lemma PopEvent(recordLength: nat, idle: State, before: State, c: Conn) returns (s: State)
    requires Pipeline.Reachable(recordLength, before) && Idle(idle) && Dispatched(idle, before, c)
    ensures Pipeline.Reachable(recordLength, s)
    ensures s == before.(events := s.events, udp := Holding(idle.events.ring.f))
    ensures Quiet(s.events) && s.events.ring == before.events.ring.Take() && s.events.ring.IsEmpty()
    ensures s.events.ring.data[idle.events.ring.f] == c
  {
    s := Progress.Step1(recordLength, before, OnEvents(PopTake(UDP, {})));
  }

  lemma ReceiveOne(recordLength: nat, before: State, p: Payload) returns (s: State)
    requires Pipeline.Reachable(recordLength, before) && before.udp.Holding? && Quiet(before.records)
    requires before.records.ring.IsEmpty() && |before.records.ring.data| >= 2
    requires before.udp.slot < |before.events.ring.data|
    ensures Pipeline.Reachable(recordLength, s)
    ensures var record := Record(before.events.ring.data[before.udp.slot], p);
            && s == before.(udp := Popping, records := s.records, flags := before.flags[record.conn := true],
                            finished := s.finished, received := before.received + [record])
            && Quiet(s.records) && s.records.ring == before.records.ring.Write(record).Publish()
  {
    s := Progress.Step1(recordLength, before, OnRecords(PushOpen(UDP)));
    s := Progress.Step1(recordLength, s, RecvFrom(Some(p), []));
    s := Progress.Step1(recordLength, s, OnRecords(PushCommit(UDP, {})));
  }

  lemma PublishOne(recordLength: nat, idle: State, record: Record) returns (s: State)
    requires Pipeline.Reachable(recordLength, idle) && Idle(idle)
    ensures Pipeline.Reachable(recordLength, s) && Published(idle, s, record)
  {
    s := DispatchOne(recordLength, idle, record.conn);
    s := PopEvent(recordLength, idle, s, record.conn);
    s := ReceiveOne(recordLength, s, record.payload);
    assert idle.flags[record.conn := false][record.conn := true] == idle.flags[record.conn := true];
  }

  lemma ConsumeOne(recordLength: nat, idle: State, before: State, record: Record) returns (s: State)
    requires Pipeline.Reachable(recordLength, before) && Idle(idle) && Published(idle, before, record)
    ensures Pipeline.Reachable(recordLength, s) && Idle(s)
    ensures s.callbacks == idle.callbacks && s.received == before.received
    ensures s.consumed == idle.consumed + [record]
  {
    s := Progress.Step1(recordLength, before, OnRecords(PopTake(RECEIVE, {})));
    s := Progress.Step1(recordLength, s, Consume);
  }

  lemma {:induction false} DeliverAll(callbacks: set<Conn>, recordLength: nat, log: seq<Record>) returns (s: State)
    requires 2 <= recordLength <= INT32_MAX
    ensures Pipeline.Reachable(recordLength, s) && Idle(s)
    ensures s.callbacks == callbacks && s.received == log && s.consumed == log
  {
    if log == [] {
      var records := seq(recordLength, _ => Record(0, []));
      var events := seq(EVENT_QUEUE_SIZE, _ => 0);
      s := Pipeline.Init(callbacks, records, events);
      assert Follows(s, [], s);
    } else {
      var rest, last := log[..|log| - 1], log[|log| - 1];
      assert log == rest + [last];
      var idle := DeliverAll(callbacks, recordLength, rest);
      s := PublishOne(recordLength, idle, last);
      s := ConsumeOne(recordLength, idle, s, last);
    }
  }

  /** Any datagrams, from any connections, can be received and delivered, each exactly once
      and in order, whatever connections have callbacks. */
  lemma EverythingDeliverable(callbacks: set<Conn>, recordLength: nat, log: seq<Record>)
    requires 2 <= recordLength <= INT32_MAX
    ensures exists s :: Pipeline.Reachable(recordLength, s) && s.callbacks == callbacks
                        && s.received == log && s.consumed == log
                        && ((forall r :: r in log ==> r.conn in callbacks) ==> s.calls == log)
  {
    var s := DeliverAll(callbacks, recordLength, log);
    CountedThrough(recordLength, s, 0, []);
  }
}
