/** What the receive path guarantees over every run (event/select.c, event/udp.c,
    event/receive.c): order, one use of a slot at a time, one outstanding event per
    connection. */
module Delivery {
  import opened Rings
  import opened Wrappers
  import opened Monitors
  import opened Pipeline

  // ---------- Order and conservation ----------

  /** Nothing is lost, duplicated or reordered between the three threads: events are
      served in the order select pushed them, and the callbacks see exactly the received
      datagrams of connections that have one, in the order they were received. */
  lemma ConservedAndOrdered(recordLength: nat, s: State)
    requires 0 < recordLength <= INT32_MAX && Pipeline.Reachable(recordLength, s)
    ensures s.events.ring.Valid() && s.records.ring.Valid()
    ensures s.pushed == Conns(s.finished) + UdpHand(s) + s.events.ring.Contents()
    ensures Datagrams(s.finished) == s.consumed + ReceiveHand(s) + s.records.ring.Contents() + Staged(s)
    ensures s.received == Datagrams(s.finished)
    ensures s.calls == WithCallback(s.consumed, s.callbacks)
  {
    Pipeline.ReachableInv(recordLength, s);
  }

  // ---------- Slots in use ----------

  lemma EventStepLeavesSlots(s: State, e: Event<Conn>)
    requires QueuesOk(s) && Allowed(s, OnEvents(e))
    ensures UdpHand(s) != [] ==> UdpHand(AfterEvent(s, e)) == UdpHand(s)
    ensures ReceiveHand(AfterEvent(s, e)) == ReceiveHand(s)
  {
    EventStepMoves(s, e);
  }

  lemma RecordStepLeavesSlots(s: State, e: Event<Record>)
    requires QueuesOk(s) && Allowed(s, OnRecords(e))
    ensures UdpHand(AfterRecord(s, e)) == UdpHand(s)
    ensures ReceiveHand(s) != [] ==> ReceiveHand(AfterRecord(s, e)) == ReceiveHand(s)
  {
    RecordStepMoves(s, e);
  }

  lemma RecvFromLeavesSlots(s: State, d: Option<Payload>, junk: Payload)
    requires QueuesOk(s) && Allowed(s, RecvFrom(d, junk))
    ensures ReceiveHand(AfterRecvFrom(s, d, junk)) == ReceiveHand(s)
  {
    RecvFromMoves(s, d, junk);
  }

  lemma StepLeavesSlots(s: State, step: Step)
    requires QueuesOk(s) && Allowed(s, step)
    ensures UdpHand(s) != [] && !step.RecvFrom? ==> UdpHand(After(s, step)) == UdpHand(s)
    ensures ReceiveHand(s) != [] && !step.Consume? ==> ReceiveHand(After(s, step)) == ReceiveHand(s)
  {
    match step
    case OnEvents(e) => EventStepLeavesSlots(s, e);
    case OnRecords(e) => RecordStepLeavesSlots(s, e);
    case RecvFrom(d, junk) => RecvFromLeavesSlots(s, d, junk);
    case _ =>
  }

  lemma UsersHoldSlots(s: State)
    requires QueuesOk(s)
    ensures s.udp.Holding? || s.udp.Receiving? ==> UdpHand(s) == [s.events.hands[UDP].value]
    ensures s.receive.Using? ==> ReceiveHand(s) == [s.records.hands[RECEIVE].value]
  {
    assert AtMostOne(EVENT_CONFIG.consumers) && AtMostOne(RECORD_CONFIG.consumers);
  }

  /** The slot a worker thread is using still holds the item its pop handed it, and no
      step of any thread writes it until that worker is done with it, however long the
      udp thread blocks on a full receive queue. */
  lemma SlotsInUseUntouched(recordLength: nat, s: State, step: Step)
    requires 0 < recordLength <= INT32_MAX && Pipeline.Reachable(recordLength, s) && Allowed(s, step)
    ensures s.udp.Holding? || s.udp.Receiving? ==>
              UDP in s.events.hands && UdpHand(s) == [s.events.hands[UDP].value]
              && (!step.RecvFrom? ==> UdpHand(After(s, step)) == UdpHand(s))
    ensures s.receive.Using? ==>
              RECEIVE in s.records.hands && ReceiveHand(s) == [s.records.hands[RECEIVE].value]
              && (!step.Consume? ==> ReceiveHand(After(s, step)) == ReceiveHand(s))
  {
    Pipeline.ReachableInv(recordLength, s);
    UsersHoldSlots(s);
    StepLeavesSlots(s, step);
  }

  // ---------- One outstanding event per connection ----------

  /** A set flag means the connection is nowhere on its way to push_recv; a cleared one
      that it is there exactly once, or that its recvfrom has failed. */
  lemma AtMostOneOutstandingEvent(recordLength: nat, s: State, c: Conn)
    requires 0 < recordLength <= INT32_MAX && Pipeline.Reachable(recordLength, s) && c in s.flags
    ensures s.events.ring.Valid()
    ensures multiset(InFlight(s))[c] <= 1
    ensures c in InFlight(s) <==> !s.flags[c] && c !in s.refused
    ensures c in s.refused ==> !s.flags[c]
  {
    Pipeline.ReachableInv(recordLength, s);
    assert c in InFlight(s) <==> c in multiset(InFlight(s));
  }

  lemma PushedFromHand(s: State, step: Step)
    requires Allowed(s, step)
    ensures After(s, step).pushed == s.pushed || After(s, step).pushed == s.pushed + SelectHand(s)
    ensures s.refused <= After(s, step).refused
  {
  }

  lemma SilentNow(s: State, c: Conn)
    requires Pipeline.Inv(s) && c in s.refused
    ensures c !in SelectHand(s)
  {
    assert c !in multiset(InFlight(s));
    assert forall x :: x in SelectHand(s) ==> x in InFlight(s);
  }

  /** Once its recvfrom has failed, a connection is never dispatched again. */
  lemma {:induction false} RefusedForever(s: State, steps: seq<Step>, s': State, c: Conn)
    requires Pipeline.Inv(s) && c in s.refused && Follows(s, steps, s')
    ensures multiset(s'.pushed)[c] == multiset(s.pushed)[c]
    decreases |steps|
  {
    if steps != [] {
      SilentNow(s, c);
      PushedFromHand(s, steps[0]);
      Pipeline.StepKeepsInv(s, steps[0]);
      RefusedForever(After(s, steps[0]), steps[1..], s', c);
    }
  }
}
