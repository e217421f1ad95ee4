/** The three threads of the receive path, as one transition system over two blocking
    queues: select (event/select.c) dispatches ready connections on the event queue,
    udp (event/udp.c) receives one datagram per event into a slot of the receive
    queue, and receive (event/receive.c) calls the connection's callback on that slot. */
module Pipeline {
  import opened Rings
  import opened Wrappers
  import opened Monitors

  type Conn = nat
  type Payload = seq<bv8>

  /** One slot of the receive queue (recv_data_t and the bytes after it). */
  datatype Record = Record(conn: Conn, payload: Payload)

  /** What became of one event: the datagram received for it, or a recvfrom error. */
  datatype Outcome = Outcome(conn: Conn, datagram: Option<Payload>)

  const SELECT: Tid := 0
  const UDP: Tid := 1
  const RECEIVE: Tid := 2
  const EVENT_QUEUE_SIZE := 100
  const EVENT_CONFIG := Config({SELECT}, {UDP}, false)
  const RECORD_CONFIG := Config({UDP}, {RECEIVE}, true)

  datatype SelectPc =
    | Scanning
    | Clearing(conn: Conn)  // has seen the connection ready and its flag set
    | Pushing(conn: Conn)   // flag cleared, inside queue_push
    | Copying(conn: Conn)   // past the full test, mutex held
    | Copied(conn: Conn)

  /** `slot` is the pointer queue_pop returned, into the ring of the event queue. */
  datatype UdpPc =
    | Popping
    | Holding(slot: nat)    // inside queue_push on the receive queue
    | Receiving(slot: nat)  // inside push_recv, before recvfrom has returned
    | Ended(ok: bool)       // push_recv has returned, mutex still held

  datatype ReceivePc = Fetching | Using(slot: nat)

  /** `flags` is the `readed` flag of every connection ever added and `callbacks` the
      connections with a read_cb. The last six fields are history. */
  datatype State = State(
    flags: map<Conn, bool>,
    callbacks: set<Conn>,
    select: SelectPc,
    udp: UdpPc,
    receive: ReceivePc,
    events: Monitor<Conn>,
    records: Monitor<Record>,
    pushed: seq<Conn>,
    finished: seq<Outcome>,
    refused: set<Conn>,
    received: seq<Record>,
    consumed: seq<Record>,
    calls: seq<Record>
  )

  datatype Step =
    | Add(conn: Conn)
    | Test(conn: Conn)
    | Clear
    | OnEvents(ev: Event<Conn>)
    | RecvFrom(datagram: Option<Payload>, junk: Payload)
    | OnRecords(rec: Event<Record>)
    | Consume

  function Init(callbacks: set<Conn>, recordSlots: seq<Record>, eventSlots: seq<Conn>): State {
    State(map[], callbacks, Scanning, Popping, Fetching, Monitors.Init(eventSlots), Monitors.Init(recordSlots),
          [], [], {}, [], [], [])
  }

  // ---------- Steps ----------

  predicate EventStepAllowed(s: State, e: Event<Conn>) {
    match e
    case PushSleep(_) => s.select.Pushing?
    case PushOpen(_) => s.select.Pushing?
    case PushWrite(_, v) => s.select.Copying? && v == s.select.conn
    case PushCommit(_, _) => s.select.Copied?
    case PushCancel(_) => false
    case PopSleep(_) => s.udp.Popping?
    case PopTake(_, _) => s.udp.Popping?
    case Spurious(_) => true
  }

  predicate RecordStepAllowed(s: State, e: Event<Record>) {
    match e
    case PushSleep(_) => s.udp.Holding?
    case PushOpen(_) => s.udp.Holding?
    case PushWrite(_, _) => false  // only through recvfrom
    case PushCommit(_, _) => s.udp.Ended? && s.udp.ok
    case PushCancel(_) => s.udp.Ended? && !s.udp.ok
    case PopSleep(_) => s.receive.Fetching?
    case PopTake(_, _) => s.receive.Fetching?
    case Spurious(_) => true
  }

  /** The record push_recv leaves in the slot, through the pointer it was given. */
  function Filled(s: State, datagram: Option<Payload>, junk: Payload): Record
    requires s.udp.Receiving? && s.udp.slot < |s.events.ring.data|
  {
    Record(s.events.ring.data[s.udp.slot], if datagram.Some? then datagram.value else junk)
  }

  predicate Allowed(s: State, step: Step) {
    match step
    case Add(c) => c !in s.flags && s.select.Scanning?
    case Test(c) => s.select.Scanning? && c in s.flags && s.flags[c]
    case Clear => s.select.Clearing?
    case OnEvents(e) => Enabled(EVENT_CONFIG, s.events, e) && EventStepAllowed(s, e)
    case RecvFrom(d, junk) =>
      s.udp.Receiving? && s.udp.slot < |s.events.ring.data|
      && Enabled(RECORD_CONFIG, s.records, PushWrite(UDP, Filled(s, d, junk)))
    case OnRecords(e) => Enabled(RECORD_CONFIG, s.records, e) && RecordStepAllowed(s, e)
    case Consume => s.receive.Using? && s.receive.slot < |s.records.ring.data|
  }

  function AfterEvent(s: State, e: Event<Conn>): State
    requires Enabled(EVENT_CONFIG, s.events, e) && EventStepAllowed(s, e)
  {
    var s' := s.(events := Apply(s.events, e));
    match e
    case PushOpen(_) => s'.(select := Copying(s.select.conn))
    case PushWrite(_, _) => s'.(select := Copied(s.select.conn))
    case PushCommit(_, _) => s'.(select := Scanning, pushed := s.pushed + [s.select.conn])
    case PopTake(_, _) => s'.(udp := Holding(s.events.ring.r))
    case _ => s'
  }

  function AfterRecord(s: State, e: Event<Record>): State
    requires Enabled(RECORD_CONFIG, s.records, e) && RecordStepAllowed(s, e)
  {
    var s' := s.(records := Apply(s.records, e));
    match e
    case PushOpen(_) => s'.(udp := Receiving(s.udp.slot))
    case PushCommit(_, _) => s'.(udp := Popping)
    case PushCancel(_) => s'.(udp := Popping)
    case PopTake(_, _) => s'.(receive := Using(s.records.ring.r))
    case _ => s'
  }

  function AfterRecvFrom(s: State, datagram: Option<Payload>, junk: Payload): State
    requires Allowed(s, RecvFrom(datagram, junk))
  {
    var record := Filled(s, datagram, junk);
    var s' := s.(records := Apply(s.records, PushWrite(UDP, record)),
                 udp := Ended(datagram.Some?),
                 finished := s.finished + [Outcome(record.conn, datagram)]);
    if datagram.Some?
    then s'.(flags := s.flags[record.conn := true], received := s.received + [record])
    else s'.(refused := s.refused + {record.conn})
  }

  function AfterConsume(s: State): State
    requires Allowed(s, Consume)
  {
    var record := s.records.ring.data[s.receive.slot];
    s.(receive := Fetching,
       consumed := s.consumed + [record],
       calls := if record.conn in s.callbacks then s.calls + [record] else s.calls)
  }

  function After(s: State, step: Step): State
    requires Allowed(s, step)
  {
    match step
    case Add(c) => s.(flags := s.flags[c := true])
    case Test(c) => s.(select := Clearing(c))
    case Clear => s.(flags := s.flags[s.select.conn := false], select := Pushing(s.select.conn))
    case OnEvents(e) => AfterEvent(s, e)
    case RecvFrom(d, junk) => AfterRecvFrom(s, d, junk)
    case OnRecords(e) => AfterRecord(s, e)
    case Consume => AfterConsume(s)
  }

  /** A run is its steps; `Follows` says they are allowed one after the other. */
  ghost predicate Follows(s: State, steps: seq<Step>, s': State)
    decreases |steps|
  {
    if steps == [] then s == s'
    else Allowed(s, steps[0]) && Follows(After(s, steps[0]), steps[1..], s')
  }

  ghost predicate Reachable(recordLength: nat, s: State) {
    exists callbacks, records, events, steps ::
      |records| == recordLength && |events| == EVENT_QUEUE_SIZE
      && Follows(Init(callbacks, records, events), steps, s)
  }

  // ---------- What is where ----------

  function Conns(outcomes: seq<Outcome>): (conns: seq<Conn>)
    ensures |conns| == |outcomes|
  {
    seq(|outcomes|, i requires 0 <= i < |outcomes| => outcomes[i].conn)
  }

  /** The datagrams among the outcomes, in order. */
  function Datagrams(outcomes: seq<Outcome>): seq<Record> {
    if outcomes == [] then []
    else
      var rest, last := outcomes[..|outcomes| - 1], outcomes[|outcomes| - 1];
      Datagrams(rest) + (if last.datagram.Some? then [Record(last.conn, last.datagram.value)] else [])
  }

  function WithCallback(records: seq<Record>, callbacks: set<Conn>): seq<Record> {
    if records == [] then []
    else
      var rest, last := records[..|records| - 1], records[|records| - 1];
      WithCallback(rest, callbacks) + (if last.conn in callbacks then [last] else [])
  }

  function SelectHand(s: State): seq<Conn> {
    if s.select.Pushing? || s.select.Copying? || s.select.Copied? then [s.select.conn] else []
  }

  /** The connection whose event the udp thread has popped and not yet served, read
      through its pointer. */
  function UdpHand(s: State): seq<Conn> {
    if (s.udp.Holding? || s.udp.Receiving?) && s.udp.slot < |s.events.ring.data|
    then [s.events.ring.data[s.udp.slot]] else []
  }

  /** A record received but not yet published in the receive queue. */
  function Staged(s: State): seq<Record>
    requires s.records.ring.Valid()
  {
    if s.udp == Ended(true) then [s.records.ring.data[s.records.ring.f]] else []
  }

  function ReceiveHand(s: State): seq<Record> {
    if s.receive.Using? && s.receive.slot < |s.records.ring.data| then [s.records.ring.data[s.receive.slot]] else []
  }

  /** Everything on its way to push_recv. */
  function InFlight(s: State): seq<Conn>
    requires s.events.ring.Valid()
  {
    UdpHand(s) + s.events.ring.Contents() + SelectHand(s)
  }

  // ---------- Invariants ----------

  /** Which calls the threads are inside agrees with where the queues have them. */
  ghost predicate PcsAgree(s: State) {
    && (SELECT in s.events.pushWait + s.events.pushWoken ==> s.select.Pushing?)
    && (s.events.holder.Some? <==> s.select.Copying? || s.select.Copied?)
    && (s.select.Copied? ==> s.events.ring.Valid() && s.events.ring.data[s.events.ring.f] == s.select.conn)
    && (UDP in s.events.popWait + s.events.popWoken ==> s.udp.Popping?)
    && (UDP in s.records.pushWait + s.records.pushWoken ==> s.udp.Holding?)
    && (s.records.holder.Some? <==> s.udp.Receiving? || s.udp.Ended?)
    && (RECEIVE in s.records.popWait + s.records.popWoken ==> s.receive.Fetching?)
    && (s.udp.Holding? || s.udp.Receiving? ==> UDP in s.events.hands && s.events.hands[UDP].slot == s.udp.slot)
    && (s.receive.Using? ==> RECEIVE in s.records.hands && s.records.hands[RECEIVE].slot == s.receive.slot)
  }

  ghost predicate QueuesOk(s: State) {
    && Monitors.Inv(EVENT_CONFIG, s.events) && |s.events.ring.data| == EVENT_QUEUE_SIZE
    && Monitors.Inv(RECORD_CONFIG, s.records)
    && PcsAgree(s)
  }

  ghost predicate EventsConserved(s: State)
    requires s.events.ring.Valid()
  {
    s.pushed == Conns(s.finished) + UdpHand(s) + s.events.ring.Contents()
  }

  ghost predicate RecordsConserved(s: State)
    requires s.records.ring.Valid()
  {
    && s.received == Datagrams(s.finished)
    && s.received == s.consumed + ReceiveHand(s) + s.records.ring.Contents() + Staged(s)
    && s.calls == WithCallback(s.consumed, s.callbacks)
  }

  /** At most one outstanding event per connection: a set flag means none, a cleared
      flag exactly one, unless the connection's recvfrom has failed. */
  ghost predicate Outstanding(flags: map<Conn, bool>, refused: set<Conn>, flight: seq<Conn>) {
    && (forall c :: c in flags ==> multiset(flight)[c] == if flags[c] || c in refused then 0 else 1)
    && (forall c :: c in flight ==> c in flags)
    && (forall c :: c in refused ==> c in flags && !flags[c])
  }

  ghost predicate OneOutstanding(s: State)
    requires s.events.ring.Valid()
  {
    && Outstanding(s.flags, s.refused, InFlight(s))
    && (s.select.Clearing? ==> s.select.conn in s.flags && s.flags[s.select.conn])
  }

  ghost predicate Inv(s: State) {
    QueuesOk(s) && EventsConserved(s) && RecordsConserved(s) && OneOutstanding(s)
  }

  lemma EventStepKeepsQueuesOk(s: State, e: Event<Conn>)
    requires QueuesOk(s) && Allowed(s, OnEvents(e))
    ensures QueuesOk(AfterEvent(s, e))
  {
    EventStepKeepsPcs(s, e);
    Monitors.StepKeepsInv(EVENT_CONFIG, s.events, e);
  }

  lemma EventStepKeepsPcs(s: State, e: Event<Conn>)
    requires QueuesOk(s) && Allowed(s, OnEvents(e))
    ensures PcsAgree(AfterEvent(s, e))
  {
    match e
    case PushWrite(_, v) => s.events.ring.WriteKeepsContents(v);
    case _ =>
  }

  lemma RecordStepKeepsQueuesOk(s: State, e: Event<Record>)
    requires QueuesOk(s) && Allowed(s, OnRecords(e))
    ensures QueuesOk(AfterRecord(s, e))
  {
    RecordStepKeepsPcs(s, e);
    Monitors.StepKeepsInv(RECORD_CONFIG, s.records, e);
  }

  lemma RecordTakeKeepsPcs(s: State, e: Event<Record>)
    requires QueuesOk(s) && Allowed(s, OnRecords(e)) && (e.PopTake? || e.PopSleep?)
    ensures PcsAgree(AfterRecord(s, e))
  {
  }

  lemma RecordStepKeepsPcs(s: State, e: Event<Record>)
    requires QueuesOk(s) && Allowed(s, OnRecords(e))
    ensures PcsAgree(AfterRecord(s, e))
  {
    match e
    case PopTake(_, _) => RecordTakeKeepsPcs(s, e);
    case PopSleep(_) => RecordTakeKeepsPcs(s, e);
    case _ =>
  }

  lemma RecvFromKeepsQueuesOk(s: State, d: Option<Payload>, junk: Payload)
    requires QueuesOk(s) && Allowed(s, RecvFrom(d, junk))
    ensures QueuesOk(AfterRecvFrom(s, d, junk))
  {
    Monitors.StepKeepsInv(RECORD_CONFIG, s.records, PushWrite(UDP, Filled(s, d, junk)));
  }

  lemma StepKeepsQueuesOk(s: State, step: Step)
    requires QueuesOk(s) && Allowed(s, step)
    ensures QueuesOk(After(s, step))
  {
    match step
    case OnEvents(e) => EventStepKeepsQueuesOk(s, e);
    case OnRecords(e) => RecordStepKeepsQueuesOk(s, e);
    case RecvFrom(d, junk) => RecvFromKeepsQueuesOk(s, d, junk);
    case Add(c) =>
    case Test(c) =>
    case Clear =>
    case Consume =>
  }

  // A step on a queue moves at most one item, from one place to the next.

  ghost predicate EventMove(s: State, s': State) {
    && s.events.ring.Valid() && s'.events.ring.Valid()
    && s'.finished == s.finished && s'.flags == s.flags && s'.refused == s.refused
    && (s'.select.Clearing? ==> s'.select == s.select)
    && if s'.pushed != s.pushed then
         s'.pushed == s.pushed + SelectHand(s) && SelectHand(s') == [] && UdpHand(s') == UdpHand(s)
         && s'.events.ring.Contents() == s.events.ring.Contents() + SelectHand(s)
       else if UdpHand(s') != UdpHand(s) then
         UdpHand(s) == [] && s.events.ring.Contents() == UdpHand(s') + s'.events.ring.Contents()
         && SelectHand(s') == SelectHand(s)
       else
         s'.events.ring.Contents() == s.events.ring.Contents() && SelectHand(s') == SelectHand(s)
  }

  lemma EventStepMoves(s: State, e: Event<Conn>)
    requires QueuesOk(s) && Allowed(s, OnEvents(e))
    ensures EventMove(s, AfterEvent(s, e))
  {
    StepQueuesInOrder(EVENT_CONFIG, s.events, e);
  }

  lemma EventMoveConserves(s: State, s': State)
    requires EventMove(s, s') && EventsConserved(s)
    ensures EventsConserved(s')
  {
  }

  ghost predicate RecordMove(s: State, s': State) {
    && s.events.ring.Valid() && s.records.ring.Valid() && s'.records.ring.Valid()
    && s'.events == s.events && UdpHand(s') == UdpHand(s) && s'.select == s.select
    && s'.flags == s.flags && s'.refused == s.refused && s'.pushed == s.pushed
    && s'.finished == s.finished && s'.received == s.received && s'.callbacks == s.callbacks
    && s'.consumed == s.consumed && s'.calls == s.calls
    && if Staged(s') != Staged(s) then
         Staged(s') == [] && ReceiveHand(s') == ReceiveHand(s)
         && s'.records.ring.Contents() == s.records.ring.Contents() + Staged(s)
       else if ReceiveHand(s') != ReceiveHand(s) then
         ReceiveHand(s) == [] && s.records.ring.Contents() == ReceiveHand(s') + s'.records.ring.Contents()
       else
         s'.records.ring.Contents() == s.records.ring.Contents()
  }

  lemma RecordStepMoves(s: State, e: Event<Record>)
    requires QueuesOk(s) && Allowed(s, OnRecords(e))
    ensures RecordMove(s, AfterRecord(s, e))
  {
    StepQueuesInOrder(RECORD_CONFIG, s.records, e);
  }

  /** A record that moves one place along stays in the total. */
  lemma MoveKeepsTotal<T>(done: seq<T>, hand: seq<T>, stored: seq<T>, staged: seq<T>,
                          hand': seq<T>, stored': seq<T>, staged': seq<T>)
    requires if staged' != staged then staged' == [] && hand' == hand && stored' == stored + staged
             else if hand' != hand then hand == [] && stored == hand' + stored'
             else stored' == stored
    ensures done + hand' + stored' + staged' == done + hand + stored + staged
  {
    if staged' != staged {
      assert done + hand + (stored + staged) + [] == done + hand + stored + staged;
    } else if hand' != hand {
      assert done + hand' + stored' == done + [] + (hand' + stored');
    }
  }

  lemma RecordMoveConserves(s: State, s': State)
    requires RecordMove(s, s') && EventsConserved(s) && RecordsConserved(s)
    ensures EventsConserved(s') && RecordsConserved(s')
  {
    MoveKeepsTotal(s.consumed, ReceiveHand(s), s.records.ring.Contents(), Staged(s),
                   ReceiveHand(s'), s'.records.ring.Contents(), Staged(s'));
  }

  lemma RecordMoveKeepsOneOutstanding(s: State, s': State)
    requires RecordMove(s, s') && OneOutstanding(s)
    ensures OneOutstanding(s')
  {
    assert InFlight(s') == InFlight(s);
  }

  /** recvfrom takes the udp thread's event out of flight and, on success, stages a record. */
  ghost predicate ReceiveMove(s: State, s': State, o: Outcome) {
    && s.events.ring.Valid() && s'.events == s.events && s.records.ring.Valid() && s'.records.ring.Valid()
    && s'.finished == s.finished + [o] && UdpHand(s) == [o.conn] && UdpHand(s') == []
    && Staged(s) == [] && s'.records.ring.Contents() == s.records.ring.Contents()
    && ReceiveHand(s') == ReceiveHand(s) && s'.select == s.select && s'.pushed == s.pushed
    && s'.consumed == s.consumed && s'.calls == s.calls && s'.callbacks == s.callbacks
    && if o.datagram.Some? then
         Staged(s') == [Record(o.conn, o.datagram.value)] && s'.received == s.received + Staged(s')
         && s'.flags == s.flags[o.conn := true] && s'.refused == s.refused
       else
         Staged(s') == [] && s'.received == s.received
         && s'.flags == s.flags && s'.refused == s.refused + {o.conn}
  }

  lemma RecvFromMoves(s: State, d: Option<Payload>, junk: Payload)
    requires QueuesOk(s) && Allowed(s, RecvFrom(d, junk))
    ensures ReceiveMove(s, AfterRecvFrom(s, d, junk), Outcome(Filled(s, d, junk).conn, d))
  {
    StepQueuesInOrder(RECORD_CONFIG, s.records, PushWrite(UDP, Filled(s, d, junk)));
  }

  lemma ReceiveMoveConserves(s: State, s': State, o: Outcome)
    requires ReceiveMove(s, s', o) && EventsConserved(s) && RecordsConserved(s)
    ensures EventsConserved(s') && RecordsConserved(s')
  {
    assert s'.finished[..|s.finished|] == s.finished;
    assert Conns(s'.finished) == Conns(s.finished) + UdpHand(s);
  }

  lemma WithCallbackAppend(records: seq<Record>, record: Record, callbacks: set<Conn>)
    ensures WithCallback(records + [record], callbacks)
            == WithCallback(records, callbacks) + (if record.conn in callbacks then [record] else [])
  {
    assert (records + [record])[..|records|] == records;
  }

  lemma NothingInHand<T>(done: seq<T>, stored: seq<T>, staged: seq<T>)
    ensures done + [] + stored + staged == done + stored + staged
  {
    assert done + [] == done;
  }

  lemma ConsumeConserves(s: State)
    requires s.records.ring.Valid() && RecordsConserved(s) && Allowed(s, Consume)
    ensures RecordsConserved(AfterConsume(s))
  {
    var s' := AfterConsume(s);
    var record := s.records.ring.data[s.receive.slot];
    assert ReceiveHand(s) == [record] && ReceiveHand(s') == [];
    WithCallbackAppend(s.consumed, record, s.callbacks);
    NothingInHand(s.consumed + [record], s.records.ring.Contents(), Staged(s));
  }

  lemma Permuted(flags: map<Conn, bool>, refused: set<Conn>, flight: seq<Conn>, flight': seq<Conn>)
    requires Outstanding(flags, refused, flight) && multiset(flight') == multiset(flight)
    ensures Outstanding(flags, refused, flight')
  {
    assert forall c :: c in flight' ==> c in multiset(flight');
  }

  lemma Served(flags: map<Conn, bool>, refused: set<Conn>, c: Conn, rest: seq<Conn>)
    requires Outstanding(flags, refused, [c] + rest)
    ensures Outstanding(flags[c := true], refused, rest)
    ensures Outstanding(flags, refused + {c}, rest)
  {
    assert multiset([c] + rest) == multiset{c} + multiset(rest);
    assert c in [c] + rest;
    assert c !in multiset(rest);
  }

  lemma Dispatched(flags: map<Conn, bool>, refused: set<Conn>, flight: seq<Conn>, c: Conn)
    requires Outstanding(flags, refused, flight) && c in flags && flags[c]
    ensures Outstanding(flags[c := false], refused, flight + [c])
  {
  }

  lemma EventMoveKeepsOneOutstanding(s: State, s': State)
    requires EventMove(s, s') && OneOutstanding(s)
    ensures OneOutstanding(s')
  {
    assert multiset(InFlight(s')) == multiset(InFlight(s));
    Permuted(s.flags, s.refused, InFlight(s), InFlight(s'));
  }

  lemma ReceiveMoveServes(s: State, s': State, o: Outcome)
    requires ReceiveMove(s, s', o)
    ensures InFlight(s) == [o.conn] + InFlight(s')
  {
    assert SelectHand(s') == SelectHand(s);
    assert InFlight(s') == s.events.ring.Contents() + SelectHand(s);
  }

  lemma ReceiveMoveKeepsOneOutstanding(s: State, s': State, o: Outcome)
    requires ReceiveMove(s, s', o) && OneOutstanding(s)
    ensures OneOutstanding(s')
  {
    ReceiveMoveServes(s, s', o);
    Served(s.flags, s.refused, o.conn, InFlight(s'));
  }

  lemma ClearKeepsOneOutstanding(s: State)
    requires s.events.ring.Valid() && OneOutstanding(s) && Allowed(s, Clear)
    ensures OneOutstanding(After(s, Clear))
  {
    assert UdpHand(After(s, Clear)) == UdpHand(s);
    assert InFlight(After(s, Clear)) == InFlight(s) + [s.select.conn];
    Dispatched(s.flags, s.refused, InFlight(s), s.select.conn);
  }

  lemma AddKeepsOneOutstanding(s: State, c: Conn)
    requires s.events.ring.Valid() && OneOutstanding(s) && Allowed(s, Add(c))
    ensures OneOutstanding(After(s, Add(c)))
  {
    assert InFlight(After(s, Add(c))) == InFlight(s);
    assert c !in InFlight(s);
  }

  lemma EventStepKeepsRecords(s: State, e: Event<Conn>)
    requires s.records.ring.Valid() && RecordsConserved(s) && Allowed(s, OnEvents(e))
    ensures AfterEvent(s, e).records == s.records && RecordsConserved(AfterEvent(s, e))
  {
    assert Staged(AfterEvent(s, e)) == Staged(s) && ReceiveHand(AfterEvent(s, e)) == ReceiveHand(s);
  }

  lemma EventStepKeepsInv(s: State, e: Event<Conn>)
    requires Inv(s) && Allowed(s, OnEvents(e))
    ensures Inv(AfterEvent(s, e))
  {
    EventStepKeepsQueuesOk(s, e);
    EventStepKeepsRecords(s, e);
    EventStepMoves(s, e);
    EventMoveConserves(s, AfterEvent(s, e));
    EventMoveKeepsOneOutstanding(s, AfterEvent(s, e));
  }

  lemma RecordStepKeepsInv(s: State, e: Event<Record>)
    requires Inv(s) && Allowed(s, OnRecords(e))
    ensures Inv(AfterRecord(s, e))
  {
    RecordStepKeepsQueuesOk(s, e);
    RecordStepMoves(s, e);
    RecordMoveConserves(s, AfterRecord(s, e));
    RecordMoveKeepsOneOutstanding(s, AfterRecord(s, e));
  }

  lemma RecvFromKeepsInv(s: State, d: Option<Payload>, junk: Payload)
    requires Inv(s) && Allowed(s, RecvFrom(d, junk))
    ensures Inv(AfterRecvFrom(s, d, junk))
  {
    var o := Outcome(Filled(s, d, junk).conn, d);
    RecvFromKeepsQueuesOk(s, d, junk);
    RecvFromMoves(s, d, junk);
    ReceiveMoveConserves(s, AfterRecvFrom(s, d, junk), o);
    ReceiveMoveKeepsOneOutstanding(s, AfterRecvFrom(s, d, junk), o);
  }

  /** A step that leaves the queues and the other threads alone. */
  lemma SelectStepConserves(s: State, s': State)
    requires s.events.ring.Valid() && s.records.ring.Valid() && EventsConserved(s) && RecordsConserved(s)
    requires s' == s.(flags := s'.flags, select := s'.select)
    ensures EventsConserved(s') && RecordsConserved(s')
  {
    assert UdpHand(s') == UdpHand(s) && ReceiveHand(s') == ReceiveHand(s) && Staged(s') == Staged(s);
  }

  lemma TestKeepsOneOutstanding(s: State, c: Conn)
    requires s.events.ring.Valid() && OneOutstanding(s) && Allowed(s, Test(c))
    ensures OneOutstanding(After(s, Test(c)))
  {
    assert InFlight(After(s, Test(c))) == InFlight(s);
  }

  lemma SelectStepKeepsInv(s: State, step: Step)
    requires Inv(s) && Allowed(s, step) && (step.Add? || step.Test? || step.Clear?)
    ensures Inv(After(s, step))
  {
    SelectStepConserves(s, After(s, step));
    StepKeepsQueuesOk(s, step);
    match step
    case Clear => ClearKeepsOneOutstanding(s);
    case Add(c) => AddKeepsOneOutstanding(s, c);
    case Test(c) => TestKeepsOneOutstanding(s, c);
  }

  lemma ConsumeKeepsInv(s: State)
    requires Inv(s) && Allowed(s, Consume)
    ensures Inv(AfterConsume(s))
  {
    ConsumeConserves(s);
    assert InFlight(AfterConsume(s)) == InFlight(s);
  }

  lemma StepKeepsInv(s: State, step: Step)
    requires Inv(s) && Allowed(s, step)
    ensures Inv(After(s, step))
  {
    match step
    case OnEvents(e) => EventStepKeepsInv(s, e);
    case OnRecords(e) => RecordStepKeepsInv(s, e);
    case RecvFrom(d, junk) => RecvFromKeepsInv(s, d, junk);
    case Consume => ConsumeKeepsInv(s);
    case _ => SelectStepKeepsInv(s, step);
  }

  lemma StepKeepsLength(s: State, step: Step)
    requires Allowed(s, step)
    ensures |After(s, step).records.ring.data| == |s.records.ring.data|
  {
  }

  lemma {:induction false} FollowsKeepsInv(s: State, steps: seq<Step>, s': State)
    requires Inv(s) && Follows(s, steps, s')
    ensures Inv(s') && |s'.records.ring.data| == |s.records.ring.data|
    decreases |steps|
  {
    if steps != [] {
      StepKeepsLength(s, steps[0]);
      StepKeepsInv(s, steps[0]);
      FollowsKeepsInv(After(s, steps[0]), steps[1..], s');
    }
  }

  lemma InitInv(callbacks: set<Conn>, records: seq<Record>, events: seq<Conn>)
    requires 0 < |records| <= INT32_MAX && |events| == EVENT_QUEUE_SIZE
    ensures Inv(Init(callbacks, records, events))
  {
  }

  lemma ReachableInv(recordLength: nat, s: State)
    requires 0 < recordLength <= INT32_MAX && Reachable(recordLength, s)
    ensures Inv(s) && |s.records.ring.data| == recordLength
  {
    var callbacks, records, events, steps :|
      |records| == recordLength && |events| == EVENT_QUEUE_SIZE && Follows(Init(callbacks, records, events), steps, s);
    InitInv(callbacks, records, events);
    FollowsKeepsInv(Init(callbacks, records, events), steps, s);
  }
}
