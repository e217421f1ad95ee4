/** Producers left asleep after the ring has drained (block_queue.c): how many producers
    it takes, what can still wake them, and exactly when it can happen. */
module Stranding {
  import opened Rings
  import opened Wrappers
  import opened Monitors

  // ---------- Sleeping producers and free slots ----------

  /** Every slot freed beside sleepers has woken one of them. */
  ghost predicate SleepersBounded<T>(cfg: Config, m: Monitor<T>)
    requires m.ring.Valid()
  {
    m.pushWait != {} ==> m.ring.Free() + |m.pushWait| <= |cfg.producers|
  }

  lemma SubsetSize(a: set<Tid>, b: set<Tid>)
    requires a <= b
    ensures |a| <= |b|
    ensures a != b ==> |a| < |b|
  {
    var rest := b - a;
    assert b == a + rest;
    assert a != b ==> rest != {};
  }

  lemma StepKeepsSleepersBounded<T>(cfg: Config, m: Monitor<T>, e: Event<T>)
    requires cfg.Valid() && WellFormed(cfg, m) && SleepersBounded(cfg, m) && Enabled(cfg, m, e)
    ensures Apply(m, e).ring.Valid() && SleepersBounded(cfg, Apply(m, e))
  {
    StepCounts(cfg, m, e);
    var after := Apply(m, e).pushWait;
    match e
    case PushSleep(_) => SubsetSize(after, cfg.producers);
    case PopTake(_, woken) => SubsetSize(after, m.pushWait);
    case Spurious(_) => SubsetSize(after, m.pushWait);
    case _ =>
  }

  lemma {:induction false} RunBoundsSleepers<T(!new)>(cfg: Config, data: seq<T>, run: seq<Monitor<T>>)
    requires cfg.Valid() && 0 < |data| <= INT32_MAX && IsRun(cfg, data, run)
    ensures run[|run| - 1].ring.Valid() && SleepersBounded(cfg, run[|run| - 1])
  {
    var n := |run| - 1;
    if n > 0 {
      var prefix := run[..n];
      assert IsRun(cfg, data, prefix);
      RunBoundsSleepers(cfg, data, prefix);
      RunKeepsInv(cfg, data, prefix);
      assert Next(cfg, run[n - 1], run[n]);
      var e :| Enabled(cfg, run[n - 1], e) && run[n] == Apply(run[n - 1], e);
      StepKeepsSleepersBounded(cfg, run[n - 1], e);
    }
  }

  /** In every reachable state with a producer asleep, free slots and sleepers together
      are at most as many as the producers. */
  lemma SleepersAndFreeSlots<T(!new)>(cfg: Config, data: seq<T>, m: Monitor<T>)
    requires cfg.Valid() && 0 < |data| <= INT32_MAX && Reachable(cfg, data, m)
    ensures m.ring.Valid() && SleepersBounded(cfg, m)
  {
    var run :| IsRun(cfg, data, run) && run[|run| - 1] == m;
    RunBoundsSleepers(cfg, data, run);
  }

  // ---------- Stranded producers ----------

  /** A producer sleeps although the ring is empty, and nobody has been woken or is
      filling a slot. */
  ghost predicate Stranded<T>(m: Monitor<T>) {
    m.pushWait != {} && m.ring.IsEmpty() && m.pushWoken == {} && m.holder == None
  }

  /** While items remain, the next pop wakes a sleeper. */
  lemma PopWakesSleeper<T>(cfg: Config, m: Monitor<T>, c: Tid, woken: set<Tid>)
    requires WellFormed(cfg, m) && Enabled(cfg, m, PopTake(c, woken)) && m.pushWait != {}
    ensures Apply(m, PopTake(c, woken)).pushWait < m.pushWait
  {
  }

  /** A producer asleep beside an empty ring is woken by nothing but a spurious wakeup
      until some other producer publishes an item. */
  lemma {:induction false} AsleepUntilPublished<T>(cfg: Config, m: Monitor<T>, events: seq<Event<T>>, p: Tid)
    requires cfg.Valid() && WellFormed(cfg, m) && p in m.pushWait && m.ring.IsEmpty()
    requires AllEnabled(cfg, m, events)
    requires forall e :: e in events ==> !e.PushCommit? && !e.Spurious?
    ensures p in AppliedAll(cfg, m, events).pushWait && AppliedAll(cfg, m, events).ring.IsEmpty()
    decreases |events|
  {
    if events != [] {
      assert events[0] in events;
      StepKeepsWellFormed(cfg, m, events[0]);
      StepCounts(cfg, m, events[0]);
      AsleepUntilPublished(cfg, Apply(m, events[0]), events[1..], p);
    }
  }

  predicate AllEnabled<T>(cfg: Config, m: Monitor<T>, events: seq<Event<T>>)
    decreases |events|
  {
    events != [] ==> Enabled(cfg, m, events[0]) && AllEnabled(cfg, Apply(m, events[0]), events[1..])
  }

  function AppliedAll<T>(cfg: Config, m: Monitor<T>, events: seq<Event<T>>): Monitor<T>
    requires AllEnabled(cfg, m, events)
    decreases |events|
  {
    if events == [] then m else AppliedAll(cfg, Apply(m, events[0]), events[1..])
  }

  // ---------- Reaching a stranded state ----------

  lemma {:induction false} SleepAll<T(!new)>(cfg: Config, data: seq<T>, before: Monitor<T>, ps: set<Tid>) returns (m: Monitor<T>)
    requires Reachable(cfg, data, before) && before.ring.Valid() && before.ring.IsFull()
    requires before.holder == None && before.pushWait == {} && before.pushWoken == {} && ps <= cfg.producers
    ensures Reachable(cfg, data, m) && m == before.(pushWait := ps)
    decreases |ps|
  {
    if ps == {} {
      m := before;
    } else {
      var p :| p in ps;
      var rest := ps - {p};
      SubsetSize(rest, ps);
      m := SleepAll(cfg, data, before, rest);
      ReachStep(cfg, data, m, PushSleep(p));
      m := Apply(m, PushSleep(p));
      assert rest + {p} == ps;
    }
  }

  /** A consumer pops k items, each pop waking one sleeper. */
  lemma {:induction false} PopSome<T(!new)>(cfg: Config, data: seq<T>, before: Monitor<T>, c: Tid, k: nat) returns (m: Monitor<T>)
    requires Reachable(cfg, data, before) && before.ring.Valid() && k <= before.ring.Count() && k <= |before.pushWait|
    requires before.holder == None && c in cfg.consumers - before.popWait
    ensures Reachable(cfg, data, m) && m.ring.Valid() && m.ring.Count() == before.ring.Count() - k
    ensures |m.pushWait| == |before.pushWait| - k && m.holder == None && c !in m.popWait
    ensures |m.ring.data| == |before.ring.data|
    ensures m.pushWait + m.pushWoken == before.pushWait + before.pushWoken
    ensures before.pushWait !! before.pushWoken ==> m.pushWait !! m.pushWoken
    decreases k
  {
    m := before;
    if k > 0 {
      var p :| p in m.pushWait;
      ReachStep(cfg, data, m, PopTake(c, {p}));
      m.ring.TakeRemovesHead();
      LeavingThread(m.pushWait, p);
      m := PopSome(cfg, data, Apply(m, PopTake(c, {p})), c, k - 1);
    }
  }

  /** Every woken producer fails its callback. */
  lemma {:induction false} FailAll<T(!new)>(cfg: Config, data: seq<T>, before: Monitor<T>) returns (m: Monitor<T>)
    requires Reachable(cfg, data, before) && before.ring.Valid() && !before.ring.IsFull() && before.holder == None
    requires cfg.mayFail && before.pushWoken <= cfg.producers && before.pushWait !! before.pushWoken
    ensures Reachable(cfg, data, m) && m == before.(pushWoken := {})
    decreases |before.pushWoken|
  {
    m := before;
    if p :| p in m.pushWoken {
      ReachStep(cfg, data, m, PushOpen(p));
      m := Apply(m, PushOpen(p));
      ReachStep(cfg, data, m, PushCancel(p));
      m := Apply(m, PushCancel(p));
      SubsetSize(m.pushWoken, before.pushWoken);
      m := FailAll(cfg, data, m);
    }
  }

  lemma {:induction false} Choose(from: set<Tid>, k: nat) returns (s: set<Tid>)
    requires k <= |from|
    ensures s <= from && |s| == k
    decreases |from|
  {
    if |from| == k {
      s := from;
    } else {
      var t :| t in from;
      LeavingThread(from, t);
      s := Choose(from - {t}, k);
    }
  }

  /** The ring fills, as many producers as slots fall asleep, a consumer drains the ring,
      and everyone it woke fails. */
  lemma ProducerStranded<T(!new)>(cfg: Config, data: seq<T>, c: Tid) returns (m: Monitor<T>)
    requires cfg.Valid() && 1 < |data| <= INT32_MAX && |data| <= |cfg.producers|
    requires c in cfg.consumers && cfg.mayFail
    ensures Reachable(cfg, data, m) && Stranded(m)
  {
    var ps := Choose(cfg.producers, |data|);
    var p :| p in ps;
    m := Monitors.Fill(cfg, data, p, |data| - 1);
    m := SleepAll(cfg, data, m, ps);
    m := PopSome(cfg, data, m, c, |data| - 1);
    m := FailAll(cfg, data, m);
  }

  lemma OneSlotStrands<T(!new)>(cfg: Config, data: seq<T>, p: Tid) returns (m: Monitor<T>)
    requires cfg.Valid() && |data| == 1 && p in cfg.producers
    ensures Reachable(cfg, data, m) && Stranded(m)
  {
    ReachInit(cfg, data);
    ReachStep(cfg, data, Init(data), PushSleep(p));
    m := Apply(Init(data), PushSleep(p));
  }

  lemma StrandedOnlyIf<T(!new)>(cfg: Config, data: seq<T>, m: Monitor<T>)
    requires cfg.Valid() && 1 < |data| <= INT32_MAX && Reachable(cfg, data, m) && Stranded(m)
    ensures cfg.mayFail && cfg.consumers != {} && |data| <= |cfg.producers|
  {
    ReachableInv(cfg, data, m);
    SleepersAndFreeSlots(cfg, data, m);
    SubsetSize({}, m.pushWait);
  }

  /** A producer can be left asleep on a drained ring exactly when callbacks can fail, there
      is a consumer and at least as many producers as slots, or on a ring of one slot. */
  lemma StrandedExactly<T(!new)>(cfg: Config, data: seq<T>)
    requires cfg.Valid() && 0 < |data| <= INT32_MAX
    ensures (exists m :: Reachable(cfg, data, m) && Stranded(m))
            <==> if |data| == 1 then cfg.producers != {}
                 else cfg.mayFail && cfg.consumers != {} && |data| <= |cfg.producers|
  {
    if |data| == 1 && cfg.producers != {} {
      var p :| p in cfg.producers;
      var m := OneSlotStrands(cfg, data, p);
    } else if |data| > 1 && cfg.mayFail && cfg.consumers != {} && |data| <= |cfg.producers| {
      var c :| c in cfg.consumers;
      var m := ProducerStranded(cfg, data, c);
    }
    forall m | Reachable(cfg, data, m) && Stranded(m)
      ensures if |data| == 1 then cfg.producers != {}
              else cfg.mayFail && cfg.consumers != {} && |data| <= |cfg.producers|
    {
      ReachableInv(cfg, data, m);
      if |data| > 1 {
        StrandedOnlyIf(cfg, data, m);
      }
    }
  }
}
