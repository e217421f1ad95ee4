/** One blocking queue shared by any number of threads (block_queue.c): a transition
    system whose steps are the critical sections of queue_push and queue_pop, split
    where a callback runs under the lock and where a thread sleeps on a condition.
    Waits never time out. */
module Monitors {
  import opened Rings
  import opened Wrappers

  type Tid = nat

  /** The threads that push, the threads that pop, and whether a push callback may fail. */
  datatype Config = Config(producers: set<Tid>, consumers: set<Tid>, mayFail: bool) {
    predicate Valid() {
      producers !! consumers
    }
  }

  /** What queue_pop gave a consumer: a pointer into the ring, and (for the record)
      the item that was there at the time. */
  datatype Hand<T> = Hand(slot: nat, value: T)

  /** `holder` is the producer running its fill with the mutex held. A `Wait` set holds
      the threads asleep on a condition variable, a `Woken` set those that have been
      signalled or spuriously woken and have not yet reacquired the mutex. */
  datatype Monitor<T> = Monitor(
    ring: Ring<T>,
    holder: Option<Tid>,
    pushWait: set<Tid>,
    pushWoken: set<Tid>,
    popWait: set<Tid>,
    popWoken: set<Tid>,
    hands: map<Tid, Hand<T>>
  )

  datatype Event<T> =
    | PushSleep(tid: Tid)                    // finds the ring full (again) and waits
    | PushOpen(tid: Tid)                     // finds room and starts filling, mutex held
    | PushWrite(tid: Tid, value: T)          // any write of the fill into the slot
    | PushCommit(tid: Tid, woken: set<Tid>)  // publishes, signals a popper, unlocks
    | PushCancel(tid: Tid)                   // callback failed: unlocks, signals nobody
    | PopSleep(tid: Tid)
    | PopTake(tid: Tid, woken: set<Tid>)     // takes the oldest item, signals a pusher
    | Spurious(tid: Tid)

  /** pthread_cond_signal wakes at least one waiter, if there is any. */
  predicate Signals(waiting: set<Tid>, woken: set<Tid>) {
    woken <= waiting && (waiting != {} ==> woken != {})
  }

  predicate Enabled<T>(cfg: Config, m: Monitor<T>, e: Event<T>) {
    m.ring.Valid() &&
    match e
    case PushSleep(p) => p in cfg.producers - m.pushWait && m.holder == None && m.ring.IsFull()
    case PushOpen(p) => p in cfg.producers - m.pushWait && m.holder == None && !m.ring.IsFull()
    case PushWrite(p, _) => m.holder == Some(p)
    case PushCommit(p, woken) => m.holder == Some(p) && Signals(m.popWait, woken)
    case PushCancel(p) => m.holder == Some(p) && cfg.mayFail
    case PopSleep(c) => c in cfg.consumers - m.popWait && m.holder == None && m.ring.IsEmpty()
    case PopTake(c, woken) =>
      c in cfg.consumers - m.popWait && m.holder == None && !m.ring.IsEmpty() && Signals(m.pushWait, woken)
    case Spurious(t) => t in m.pushWait + m.popWait
  }

  function Apply<T>(m: Monitor<T>, e: Event<T>): Monitor<T>
    requires m.ring.Valid()
  {
    match e
    case PushSleep(p) => m.(pushWait := m.pushWait + {p}, pushWoken := m.pushWoken - {p})
    case PushOpen(p) => m.(holder := Some(p), pushWoken := m.pushWoken - {p})
    case PushWrite(_, v) => m.(ring := m.ring.Write(v))
    case PushCommit(_, woken) =>
      m.(ring := m.ring.Publish(), holder := None, popWait := m.popWait - woken, popWoken := m.popWoken + woken)
    case PushCancel(_) => m.(holder := None)
    case PopSleep(c) => m.(popWait := m.popWait + {c}, popWoken := m.popWoken - {c})
    case PopTake(c, woken) =>
      m.(ring := m.ring.Take(), popWoken := m.popWoken - {c},
         pushWait := m.pushWait - woken, pushWoken := m.pushWoken + woken,
         hands := m.hands[c := Hand(m.ring.r, m.ring.data[m.ring.r])])
    case Spurious(t) =>
      if t in m.pushWait
      then m.(pushWait := m.pushWait - {t}, pushWoken := m.pushWoken + {t})
      else m.(popWait := m.popWait - {t}, popWoken := m.popWoken + {t})
  }

  function Init<T>(data: seq<T>): Monitor<T> {
    Monitor(Ring(0, 0, data), None, {}, {}, {}, {}, map[])
  }

  ghost predicate Next<T(!new)>(cfg: Config, m: Monitor<T>, m': Monitor<T>) {
    exists e :: Enabled(cfg, m, e) && m' == Apply(m, e)
  }

  ghost predicate IsRun<T(!new)>(cfg: Config, data: seq<T>, run: seq<Monitor<T>>) {
    && run != []
    && run[0] == Init(data)
    && forall i :: 0 <= i < |run| - 1 ==> Next(cfg, run[i], run[i + 1])
  }

  ghost predicate Reachable<T(!new)>(cfg: Config, data: seq<T>, m: Monitor<T>) {
    exists run :: IsRun(cfg, data, run) && run[|run| - 1] == m
  }

  lemma ReachInit<T(!new)>(cfg: Config, data: seq<T>)
    ensures Reachable(cfg, data, Init(data))
  {
    assert IsRun(cfg, data, [Init(data)]);
  }

  lemma ReachStep<T(!new)>(cfg: Config, data: seq<T>, m: Monitor<T>, e: Event<T>)
    requires Reachable(cfg, data, m) && Enabled(cfg, m, e)
    ensures Reachable(cfg, data, Apply(m, e))
  {
    var run :| IsRun(cfg, data, run) && run[|run| - 1] == m;
    var longer := run + [Apply(m, e)];
    assert Next(cfg, m, Apply(m, e));
    assert forall i :: 0 <= i < |longer| - 1 ==> Next(cfg, longer[i], longer[i + 1]);
    assert IsRun(cfg, data, longer);
  }

  // ---------- What must hold in every state ----------

  /** No consumer sleeps unsignalled beside an item that no woken consumer will fetch. */
  ghost predicate ConsumersCovered<T>(m: Monitor<T>)
    requires m.ring.Valid()
  {
    m.popWait != {} ==> m.ring.Count() <= |m.popWoken|
  }

  /** The number of producers running their fill with the mutex held. */
  function Filling<T>(m: Monitor<T>): nat {
    if m.holder.Some? then 1 else 0
  }

  /** No producer sleeps unsignalled beside a free slot that no woken producer, nor the
      one already filling, will use. */
  ghost predicate ProducersCovered<T>(m: Monitor<T>)
    requires m.ring.Valid()
  {
    m.pushWait != {} ==> m.ring.Free() <= |m.pushWoken| + Filling(m)
  }

  /** What each consumer was handed is still in the slot it points at. */
  ghost predicate HandsIntact<T>(m: Monitor<T>) {
    forall c :: c in m.hands ==> m.hands[c].slot < |m.ring.data| && m.ring.data[m.hands[c].slot] == m.hands[c].value
  }

  /** The only slot still in use is the one the ring keeps empty. */
  ghost predicate HandsCurrent<T>(m: Monitor<T>)
    requires m.ring.Valid()
  {
    HandsIntact(m) && forall c :: c in m.hands ==> m.hands[c].slot == m.ring.Previous()
  }

  ghost predicate AtMostOne(s: set<Tid>) {
    forall a, b :: a in s && b in s ==> a == b
  }

  ghost predicate TrivialRing<T>(m: Monitor<T>) {
    |m.ring.data| == 1
  }

  ghost predicate WellFormed<T>(cfg: Config, m: Monitor<T>) {
    && m.ring.Valid()
    && m.pushWait <= cfg.producers && m.pushWoken <= cfg.producers && m.pushWait !! m.pushWoken
    && m.popWait <= cfg.consumers && m.popWoken <= cfg.consumers && m.popWait !! m.popWoken
    && (m.holder.Some? ==>
          m.holder.value in cfg.producers - m.pushWait - m.pushWoken && !m.ring.IsFull())
    && m.hands.Keys <= cfg.consumers
  }

  ghost predicate Inv<T>(cfg: Config, m: Monitor<T>) {
    && WellFormed(cfg, m)
    && ConsumersCovered(m)
    && (AtMostOne(cfg.producers) || !cfg.mayFail ==> ProducersCovered(m))
    && (cfg.consumers == {} && m.pushWait != {} ==> m.ring.IsFull())
    && (cfg.producers == {} ==> m.ring.IsEmpty())
    && (TrivialRing(m) || cfg.producers == {} ==> m.hands == map[])
    && (AtMostOne(cfg.consumers) ==> HandsCurrent(m))
  }

  lemma MovedThreads(woken: set<Tid>, more: set<Tid>)
    requires woken !! more
    ensures |woken + more| == |woken| + |more|
  {
  }

  lemma LeavingThread(s: set<Tid>, t: Tid)
    ensures |s - {t}| == if t in s then |s| - 1 else |s|
  {
    if t in s {
      assert s == (s - {t}) + {t};
    } else {
      assert s - {t} == s;
    }
  }

  lemma AloneIn(s: set<Tid>, a: set<Tid>, b: set<Tid>)
    requires AtMostOne(s) && a + b <= s && a !! b && a != {}
    ensures b == {}
  {
    var x :| x in a;
  }

  lemma StepKeepsWellFormed<T>(cfg: Config, m: Monitor<T>, e: Event<T>)
    requires cfg.Valid() && WellFormed(cfg, m) && Enabled(cfg, m, e)
    ensures WellFormed(cfg, Apply(m, e))
  {
    var m' := Apply(m, e);
    match e
    case PushSleep(p) =>
    case PushOpen(p) =>
    case PushWrite(p, v) =>
    case PushCommit(p, woken) =>
    case PushCancel(p) =>
    case PopSleep(c) =>
    case PopTake(c, woken) =>
    case Spurious(t) =>
  }

  lemma StepKeepsConsumersCovered<T>(cfg: Config, m: Monitor<T>, e: Event<T>)
    requires cfg.Valid() && WellFormed(cfg, m) && ConsumersCovered(m) && Enabled(cfg, m, e) && Apply(m, e).ring.Valid()
    ensures ConsumersCovered(Apply(m, e))
  {
    match e
    case PushCommit(p, woken) =>
      m.ring.PublishAppends();
      MovedThreads(m.popWoken, woken);
    case PopTake(c, woken) =>
      m.ring.TakeRemovesHead();
      LeavingThread(m.popWoken, c);
    case Spurious(t) =>
      if t in m.popWait {
        MovedThreads(m.popWoken, {t});
      }
    case _ =>
  }

  lemma OpenKeepsProducersCovered<T>(cfg: Config, m: Monitor<T>, p: Tid)
    requires WellFormed(cfg, m) && ProducersCovered(m) && Enabled(cfg, m, PushOpen(p))
    ensures ProducersCovered(Apply(m, PushOpen(p)))
  {
    LeavingThread(m.pushWoken, p);
  }

  lemma CommitKeepsProducersCovered<T>(cfg: Config, m: Monitor<T>, p: Tid, woken: set<Tid>)
    requires WellFormed(cfg, m) && ProducersCovered(m) && Enabled(cfg, m, PushCommit(p, woken))
    requires m.ring.Publish().Valid()
    ensures ProducersCovered(Apply(m, PushCommit(p, woken)))
  {
    m.ring.PublishAppends();
  }

  lemma TakeKeepsProducersCovered<T>(cfg: Config, m: Monitor<T>, c: Tid, woken: set<Tid>)
    requires WellFormed(cfg, m) && ProducersCovered(m) && Enabled(cfg, m, PopTake(c, woken))
    requires m.ring.Take().Valid()
    ensures ProducersCovered(Apply(m, PopTake(c, woken)))
  {
    m.ring.TakeRemovesHead();
    MovedThreads(m.pushWoken, woken);
  }

  lemma SpuriousKeepsProducersCovered<T>(cfg: Config, m: Monitor<T>, t: Tid)
    requires cfg.Valid() && WellFormed(cfg, m) && ProducersCovered(m) && Enabled(cfg, m, Spurious(t))
    ensures ProducersCovered(Apply(m, Spurious(t)))
  {
    if t in m.pushWait {
      MovedThreads(m.pushWoken, {t});
    }
  }

  lemma StepKeepsProducersCovered<T>(cfg: Config, m: Monitor<T>, e: Event<T>)
    requires e.PushCancel? ==> m.pushWait == {}
    requires cfg.Valid() && WellFormed(cfg, m) && ProducersCovered(m) && Enabled(cfg, m, e) && Apply(m, e).ring.Valid()
    ensures ProducersCovered(Apply(m, e))
  {
    match e
    case PushOpen(p) => OpenKeepsProducersCovered(cfg, m, p);
    case PushCommit(p, woken) => CommitKeepsProducersCovered(cfg, m, p, woken);
    case PopTake(c, woken) => TakeKeepsProducersCovered(cfg, m, c, woken);
    case Spurious(t) => SpuriousKeepsProducersCovered(cfg, m, t);
    case _ =>
  }

  lemma StepKeepsHands<T>(cfg: Config, m: Monitor<T>, e: Event<T>)
    requires cfg.Valid() && WellFormed(cfg, m) && HandsCurrent(m) && Enabled(cfg, m, e)
    requires AtMostOne(cfg.consumers)
    ensures HandsCurrent(Apply(m, e))
  {
    match e
    case PushWrite(p, v) =>
      m.ring.WriteKeepsContents(v);
    case PopTake(c, woken) =>
      m.ring.TakeRemovesHead();
    case _ =>
  }

  /** First in, first out: only a commit adds an item, at the back, and only a take
      removes one, at the front. No other step disturbs the items or the last slot
      handed out. */
  lemma StepQueuesInOrder<T>(cfg: Config, m: Monitor<T>, e: Event<T>)
    requires WellFormed(cfg, m) && Enabled(cfg, m, e)
    ensures Apply(m, e).ring.Valid()
    ensures e.PushCommit? ==>
              Apply(m, e).ring.data == m.ring.data
              && Apply(m, e).ring.Contents() == m.ring.Contents() + [m.ring.data[m.ring.f]]
    ensures e.PopTake? ==>
              Apply(m, e).ring.data == m.ring.data
              && m.ring.Contents() == [m.ring.data[m.ring.r]] + Apply(m, e).ring.Contents()
    ensures !e.PushCommit? && !e.PopTake? ==>
              Apply(m, e).ring.data[m.ring.Previous()] == m.ring.data[m.ring.Previous()]
              && Apply(m, e).ring.Contents() == m.ring.Contents()
  {
    match e
    case PushWrite(p, v) => m.ring.WriteKeepsContents(v);
    case PushCommit(p, woken) => m.ring.PublishAppends();
    case PopTake(c, woken) => m.ring.TakeRemovesHead();
    case _ =>
  }

  lemma StepCounts<T>(cfg: Config, m: Monitor<T>, e: Event<T>)
    requires WellFormed(cfg, m) && Enabled(cfg, m, e)
    ensures Apply(m, e).ring.Valid()
    ensures Apply(m, e).ring.Count() ==
              m.ring.Count() + (if e.PushCommit? then 1 else if e.PopTake? then -1 else 0)
  {
    StepQueuesInOrder(cfg, m, e);
    assert forall ring: Ring<T> :: ring.Valid() ==> ring.Count() == |ring.Contents()|;
  }

  lemma StepKeepsInv<T>(cfg: Config, m: Monitor<T>, e: Event<T>)
    requires cfg.Valid() && Inv(cfg, m) && Enabled(cfg, m, e)
    ensures Inv(cfg, Apply(m, e))
  {
    StepKeepsWellFormed(cfg, m, e);
    StepKeepsConsumersCovered(cfg, m, e);
    if AtMostOne(cfg.producers) || !cfg.mayFail {
      if e.PushCancel? {
        AloneIn(cfg.producers, {e.tid}, m.pushWait);
      }
      StepKeepsProducersCovered(cfg, m, e);
    }
    if AtMostOne(cfg.consumers) {
      StepKeepsHands(cfg, m, e);
    }
  }

  lemma {:induction false} RunKeepsInv<T(!new)>(cfg: Config, data: seq<T>, run: seq<Monitor<T>>)
    requires cfg.Valid() && 0 < |data| <= INT32_MAX && IsRun(cfg, data, run)
    ensures Inv(cfg, run[|run| - 1]) && |run[|run| - 1].ring.data| == |data|
  {
    var n := |run| - 1;
    if n > 0 {
      var prefix := run[..n];
      assert IsRun(cfg, data, prefix);
      RunKeepsInv(cfg, data, prefix);
      assert Next(cfg, run[n - 1], run[n]);
      var e :| Enabled(cfg, run[n - 1], e) && run[n] == Apply(run[n - 1], e);
      StepKeepsInv(cfg, run[n - 1], e);
    }
  }

  lemma ReachableInv<T(!new)>(cfg: Config, data: seq<T>, m: Monitor<T>)
    requires cfg.Valid() && 0 < |data| <= INT32_MAX && Reachable(cfg, data, m)
    ensures Inv(cfg, m) && |m.ring.data| == |data|
  {
    var run :| IsRun(cfg, data, run) && run[|run| - 1] == m;
    RunKeepsInv(cfg, data, run);
  }

  // ---------- No step is refused ----------

  /** A thread outside goes on as the number of items says once the mutex is free. */
  lemma ThreadsGoOn<T>(cfg: Config, m: Monitor<T>, t: Tid)
    requires WellFormed(cfg, m) && m.holder == None
    ensures t in cfg.producers - m.pushWait ==>
              Enabled(cfg, m, if |m.ring.Contents()| < |m.ring.data| - 1 then PushOpen(t) else PushSleep(t))
    ensures t in cfg.consumers - m.popWait ==>
              if m.ring.Contents() == [] then Enabled(cfg, m, PopSleep(t))
              else forall woken :: Signals(m.pushWait, woken) ==> Enabled(cfg, m, PopTake(t, woken))
  {
    m.ring.CountIsModular();
  }

  /** A producer holding the mutex may write anything, succeed whichever sleepers its signal
      reaches, and fail if its callback can; a sleeper may wake at any time. */
  lemma HolderGoesOn<T(!new)>(cfg: Config, m: Monitor<T>, t: Tid)
    requires WellFormed(cfg, m)
    ensures m.holder == Some(t) ==>
              (forall v :: Enabled(cfg, m, PushWrite(t, v)))
              && (forall woken :: Signals(m.popWait, woken) ==> Enabled(cfg, m, PushCommit(t, woken)))
              && (cfg.mayFail ==> Enabled(cfg, m, PushCancel(t)))
    ensures t in m.pushWait + m.popWait ==> Enabled(cfg, m, Spurious(t))
  {
  }

  /** A signal reaches any nonempty part of the sleepers. */
  lemma SignalsExactly(waiting: set<Tid>, woken: set<Tid>)
    ensures Signals(waiting, woken) <==>
              if waiting == {} then woken == {} else woken != {} && forall t :: t in woken ==> t in waiting
  {
  }

  // ---------- No lost wakeup, and exactly when ----------

  /** Whatever the numbers of threads and whatever the callbacks do, no item waits
      beside an unsignalled sleeping consumer. */
  lemma ConsumerWakeupsNeverLost<T(!new)>(cfg: Config, data: seq<T>, m: Monitor<T>)
    requires cfg.Valid() && 0 < |data| <= INT32_MAX && Reachable(cfg, data, m)
    ensures m.ring.Valid() && ConsumersCovered(m)
  {
    ReachableInv(cfg, data, m);
  }

  lemma Push<T(!new)>(cfg: Config, data: seq<T>, m: Monitor<T>, p: Tid, v: T, woken: set<Tid>) returns (m': Monitor<T>)
    requires cfg.Valid() && Reachable(cfg, data, m) && m.ring.Valid() && !m.ring.IsFull()
    requires m.holder == None && p in cfg.producers - m.pushWait && Signals(m.popWait, woken)
    ensures Reachable(cfg, data, m')
    ensures m' == m.(ring := m.ring.Write(v).Publish(), pushWoken := m.pushWoken - {p},
                     popWait := m.popWait - woken, popWoken := m.popWoken + woken)
  {
    ReachStep(cfg, data, m, PushOpen(p));
    var filling := Apply(m, PushOpen(p));
    ReachStep(cfg, data, filling, PushWrite(p, v));
    var written := Apply(filling, PushWrite(p, v));
    ReachStep(cfg, data, written, PushCommit(p, woken));
    m' := Apply(written, PushCommit(p, woken));
  }

  /** A producer alone can fill the ring. */
  lemma {:induction false} Fill<T(!new)>(cfg: Config, data: seq<T>, p: Tid, k: nat) returns (m: Monitor<T>)
    requires cfg.Valid() && k < |data| <= INT32_MAX && p in cfg.producers
    ensures Reachable(cfg, data, m) && m == Init(data).(ring := m.ring)
    ensures m.ring.f == k && m.ring.r == 0 && |m.ring.data| == |data|
  {
    if k == 0 {
      ReachInit(cfg, data);
      m := Init(data);
    } else {
      var before := Fill(cfg, data, p, k - 1);
      m := Push(cfg, data, before, p, data[0], {});
    }
  }

  /** With two producers a wakeup can be lost: the one that was signalled fails its
      callback and passes no wakeup on, and the other sleeps on beside a free slot. */
  lemma ProducerWakeupLost<T(!new)>(cfg: Config, data: seq<T>, p: Tid, q: Tid, c: Tid) returns (m: Monitor<T>)
    requires cfg.Valid() && 1 < |data| <= INT32_MAX
    requires p in cfg.producers && q in cfg.producers && p != q && c in cfg.consumers && cfg.mayFail
    ensures Reachable(cfg, data, m) && m.ring.Valid() && !ProducersCovered(m)
  {
    m := Fill(cfg, data, p, |data| - 1);
    ReachStep(cfg, data, m, PushSleep(p));
    m := Apply(m, PushSleep(p));
    ReachStep(cfg, data, m, PushSleep(q));
    m := Apply(m, PushSleep(q));
    ReachStep(cfg, data, m, PopTake(c, {p}));
    m := Apply(m, PopTake(c, {p}));
    ReachStep(cfg, data, m, PushOpen(p));
    m := Apply(m, PushOpen(p));
    ReachStep(cfg, data, m, PushCancel(p));
    m := Apply(m, PushCancel(p));
    assert q in m.pushWait;
  }

  /** Producers never lose a wakeup exactly when callbacks cannot fail, or there is only
      one producer, or nothing is ever popped. */
  lemma ProducerWakeupsExactly<T(!new)>(cfg: Config, data: seq<T>)
    requires cfg.Valid() && 0 < |data| <= INT32_MAX
    ensures (forall m :: Reachable(cfg, data, m) ==> m.ring.Valid() && ProducersCovered(m))
            <==> (!cfg.mayFail || AtMostOne(cfg.producers) || cfg.consumers == {} || |data| == 1)
  {
    if !cfg.mayFail || AtMostOne(cfg.producers) || cfg.consumers == {} || |data| == 1 {
      forall m | Reachable(cfg, data, m)
        ensures m.ring.Valid() && ProducersCovered(m)
      {
        ReachableInv(cfg, data, m);
      }
    } else {
      var p, q :| p in cfg.producers && q in cfg.producers && p != q;
      var c :| c in cfg.consumers;
      var m := ProducerWakeupLost(cfg, data, p, q, c);
    }
  }

  // ---------- The slot in a consumer's hand, and exactly when it is safe ----------

  /** With two consumers the ring can come round to a slot that is still in use. */
  lemma HandOverwritten<T(!new)>(cfg: Config, data: seq<T>, p: Tid, a: Tid, b: Tid, x: T, y: T) returns (m: Monitor<T>)
    requires cfg.Valid() && 1 < |data| <= INT32_MAX && x != y
    requires p in cfg.producers && a in cfg.consumers && b in cfg.consumers && a != b
    ensures Reachable(cfg, data, m) && !HandsIntact(m)
  {
    m := Fill(cfg, data, p, |data| - 1);
    ReachStep(cfg, data, m, PopTake(a, {}));
    m := Apply(m, PopTake(a, {}));
    var held := m.hands[a];
    m := Push(cfg, data, m, p, x, {});
    ReachStep(cfg, data, m, PopTake(b, {}));
    m := Apply(m, PopTake(b, {}));
    m := Push(cfg, data, m, p, if held.value == x then y else x, {});
    assert m.hands[a] == held;
  }

  /** A slot handed out by queue_pop stays as it was until that consumer's next pop
      exactly when the queue has a single consumer (or can never carry an item). */
  lemma HandsIntactExactly<T(!new)>(cfg: Config, data: seq<T>, x: T, y: T)
    requires cfg.Valid() && 0 < |data| <= INT32_MAX && x != y
    ensures (forall m :: Reachable(cfg, data, m) ==> HandsIntact(m))
            <==> (AtMostOne(cfg.consumers) || cfg.producers == {} || |data| == 1)
  {
    if AtMostOne(cfg.consumers) || cfg.producers == {} || |data| == 1 {
      forall m | Reachable(cfg, data, m)
        ensures HandsIntact(m)
      {
        ReachableInv(cfg, data, m);
      }
    } else {
      var a, b :| a in cfg.consumers && b in cfg.consumers && a != b;
      var p :| p in cfg.producers;
      var m := HandOverwritten(cfg, data, p, a, b, x, y);
    }
  }
}
