/** Every step of either thread keeps every invariant of the pairing machine. */
module PairingInvariants {
  import opened BlockingDequeues
  import opened TimerPools
  import opened PairingMachine

  /** The history entry a step writes, if any. */
  function Noted(s: State, a: Action): seq<Observation> {
    if a.Receiver? && s.rpc.Found? && s.rpc.msg.key in s.cache then
      [Paired(s.cache[s.rpc.msg.key], s.rpc.msg, s.swept)]
    else if a.Receiver? && s.rpc.Missing? && s.rpc.msg.key !in s.cache then [Stored(s.rpc.msg)]
    else if a.TimerThread? && s.tpc.InFlight? then
      var t := s.tpc.timer;
      [if t.id in s.cache then Evicted(s.cache[t.id], t, s.tpc.snapshot) else Stale(t.id)]
    else []
  }

  lemma StepLog(s: State, a: Action)
    ensures Step(s, a).log == s.log + Noted(s, a)
  {
  }

  lemma InOrderReceiver(s: State)
    requires InOrder(s) && KeyKnown(s)
    ensures InOrder(ReceiverStep(s))
  {
  }

  /** The pool thread only ever takes messages out of the cache. */
  lemma TimerOnlyRemoves(s: State)
    ensures var s' := TimerStep(s);
            && s'.arrived == s.arrived && s'.handled == s.handled && s'.rpc == s.rpc && s'.armed == s.armed
            && s'.cache.Keys <= s.cache.Keys && forall k <- s'.cache :: s'.cache[k] == s.cache[k]
  {
    if s.tpc.InFlight? {
      assert TimerStep(s).cache == s.cache || TimerStep(s).cache == s.cache - {s.tpc.timer.id};
    } else {
      assert TimerStep(s).cache == s.cache;
    }
  }

  lemma InOrderTimer(s: State)
    requires InOrder(s)
    ensures InOrder(TimerStep(s))
  {
    TimerOnlyRemoves(s);
    var s' := TimerStep(s);
    forall k <- s'.cache
      ensures IsHandled(s', s'.cache[k]) && s'.cache[k].key == k
    {
      assert IsHandled(s, s.cache[k]);
    }
  }

  lemma InOrderKept(s: State, a: Action)
    requires InOrder(s) && KeyKnown(s)
    ensures InOrder(Step(s, a))
  {
    match a
    case Receiver => InOrderReceiver(s);
    case TimerThread => InOrderTimer(s);
    case _ =>
  }

  lemma EvictedSinceAppend(log: seq<Observation>, o: Observation, since: nat, key: string)
    requires since <= |log|
    ensures EvictedSince(log + [o], since, key) <==>
            EvictedSince(log, since, key) || (o.Evicted? && o.first.key == key)
  {
    var log' := log + [o];
    if EvictedSince(log, since, key) {
      var i :| since <= i < |log| && log[i].Evicted? && log[i].first.key == key;
      assert log'[i] == log[i];
    }
    assert log'[|log|] == o;
  }

  lemma KeyKnownReceiver(s: State)
    requires InOrder(s) && KeyKnown(s)
    ensures KeyKnown(ReceiverStep(s))
  {
  }

  lemma KeyKnownTimer(s: State)
    requires InOrder(s) && KeyKnown(s)
    ensures KeyKnown(TimerStep(s))
  {
    if (s.rpc.Found? || s.rpc.Crashed?) && s.tpc.InFlight? {
      EvictedSinceAppend(s.log, Noted(s, TimerThread)[0], s.rpc.since, s.rpc.msg.key);
    }
  }

  lemma KeyKnownKept(s: State, a: Action)
    requires InOrder(s) && KeyKnown(s)
    ensures KeyKnown(Step(s, a))
  {
    match a
    case Receiver => KeyKnownReceiver(s);
    case TimerThread => KeyKnownTimer(s);
    case _ =>
  }

  lemma ArmedOnceKept(s: State, a: Action)
    requires InOrder(s) && KeyKnown(s) && ArmedOnce(s)
    ensures ArmedOnce(Step(s, a))
  {
    match a
    case Receiver => ArmedOnceReceiver(s);
    case _ =>
  }

  lemma ArmedOnceReceiver(s: State)
    requires InOrder(s) && KeyKnown(s) && ArmedOnce(s)
    ensures ArmedOnce(ReceiverStep(s))
  {
  }

  /** The key step: `deleteTimer(k)` runs only while k is absent from the cache. */
  lemma NoneStrandedReceiver(s: State)
    requires InOrder(s) && KeyKnown(s) && ArmedOnce(s) && NoneStranded(s)
    ensures NoneStranded(ReceiverStep(s))
  {
    var s' := ReceiverStep(s);
    forall k <- s'.cache
      ensures ArmingNow(s'.rpc, s'.cache[k]) || OwnTimerLive(s', s'.cache[k])
    {
      var m := s'.cache[k];
      if s.rpc.Reported? {
        WithoutFirstElements(s.queue, HasId(s.rpc.first.key));
        assert !HasId(s.rpc.first.key)(Timer(s.armed[m.serial].deadline, m.key));
      } else if s.rpc.Stamped? && m != s.rpc.msg {
        assert s'.armed[m.serial] == s.armed[m.serial];
      }
    }
  }

  /** A timer leaves the queue only into the hands of the pool thread, which evicts its key next. */
  lemma NoneStrandedTimer(s: State)
    requires NoneStranded(s)
    requires forall k <- s.cache :: s.cache[k].key == k
    ensures NoneStranded(TimerStep(s))
  {
    var s' := TimerStep(s);
    if s.tpc.Sweeping? {
      WithoutFirstElements(s.queue, ExpiredBy(s.tpc.snapshot));
    }
    forall k <- s'.cache
      ensures ArmingNow(s'.rpc, s'.cache[k]) || OwnTimerLive(s', s'.cache[k])
    {
      assert ArmingNow(s.rpc, s.cache[k]) || OwnTimerLive(s, s.cache[k]);
    }
  }

  lemma NoneStrandedKept(s: State, a: Action)
    requires InOrder(s) && KeyKnown(s) && ArmedOnce(s) && NoneStranded(s)
    ensures NoneStranded(Step(s, a))
  {
    match a
    case Receiver => NoneStrandedReceiver(s);
    case TimerThread => NoneStrandedTimer(s);
    case _ =>
      assert forall k <- s.cache :: ArmingNow(s.rpc, s.cache[k]) || OwnTimerLive(s, s.cache[k]);
  }

  lemma SweptCleanReceiver(s: State)
    requires InOrder(s) && KeyKnown(s) && ArmedOnce(s) && SweptClean(s)
    ensures SweptClean(ReceiverStep(s))
  {
  }

  /** When a sweep finds nothing more, every own timer in the queue has a deadline at or past the snapshot. */
  lemma SweptCleanLastLook(s: State)
    requires InOrder(s) && ArmedOnce(s) && NoneStranded(s) && SweptClean(s)
    requires s.tpc.Sweeping? && FirstMatch(s.queue, ExpiredBy(s.tpc.snapshot)) == |s.queue|
    ensures SweptClean(TimerStep(s))
  {
    NothingExpired(s.queue, s.tpc.snapshot);
    assert TimerStep(s) == s.(tpc := AtFront, swept := s.tpc.snapshot);
  }

  lemma SweptCleanTimer(s: State)
    requires InOrder(s) && ArmedOnce(s) && NoneStranded(s) && SweptClean(s)
    ensures SweptClean(TimerStep(s))
  {
    if s.tpc.Sweeping? && FirstMatch(s.queue, ExpiredBy(s.tpc.snapshot)) == |s.queue| {
      SweptCleanLastLook(s);
    } else {
      TimerOnlyRemoves(s);
      assert TimerStep(s).swept == s.swept;
    }
  }

  lemma SweptCleanKept(s: State, a: Action)
    requires InOrder(s) && KeyKnown(s) && ArmedOnce(s) && NoneStranded(s) && SweptClean(s)
    ensures SweptClean(Step(s, a))
  {
    match a
    case Receiver => SweptCleanReceiver(s);
    case TimerThread => SweptCleanTimer(s);
    case _ =>
  }

  lemma PairsCleanKept(s: State, a: Action)
    requires InOrder(s) && ArmedOnce(s) && NoneStranded(s) && SweptClean(s) && PairsClean(s)
    ensures PairsClean(Step(s, a))
  {
    StepLog(s, a);
  }

  lemma PushKeepsSorted(q: seq<Timer>, t: Timer)
    requires Sorted(q) && forall u <- q :: u.deadline <= t.deadline
    ensures Sorted(q + [t])
  {
  }

  lemma QueueInTimeReceiver(s: State)
    requires QueueInTime(s)
    ensures QueueInTime(ReceiverStep(s))
  {
    if s.rpc.Reported? {
      RemovalKeepsSorted(s.queue, HasId(s.rpc.first.key));
      WithoutFirstElements(s.queue, HasId(s.rpc.first.key));
    } else if s.rpc.Stamped? {
      PushKeepsSorted(s.queue, Timer(s.rpc.readAt + s.duration, s.rpc.msg.key));
    }
  }

  lemma QueueInTimeKept(s: State, a: Action)
    requires QueueInTime(s)
    ensures QueueInTime(Step(s, a))
  {
    match a
    case Receiver => QueueInTimeReceiver(s);
    case TimerThread => QueueInTimeTimer(s);
    case _ =>
  }

  lemma QueueInTimeTimer(s: State)
    requires QueueInTime(s)
    ensures QueueInTime(TimerStep(s))
  {
    if s.tpc.Sweeping? {
      RemovalKeepsSorted(s.queue, ExpiredBy(s.tpc.snapshot));
      WithoutFirstElements(s.queue, ExpiredBy(s.tpc.snapshot));
    }
  }

  lemma SleepInTimeReceiver(s: State)
    requires QueueInTime(s) && SleepInTime(s)
    ensures SleepInTime(ReceiverStep(s))
  {
    if s.rpc.Reported? {
      WithoutFirstElements(s.queue, HasId(s.rpc.first.key));
    }
  }

  lemma SleepInTimeKept(s: State, a: Action)
    requires QueueInTime(s) && SleepInTime(s)
    ensures SleepInTime(Step(s, a))
  {
    match a
    case Receiver => SleepInTimeReceiver(s);
    case TimerThread =>
      if s.tpc.FrontRead? {
        WakeBounds(s.now, s.tpc.front);
      }
    case _ =>
  }

  lemma OverdueAppended(log: seq<Observation>, o: Observation)
    requires forall i :: 0 <= i < |log| && log[i].Evicted? ==> EvictedOverdue(log[i])
    requires o.Evicted? ==> EvictedOverdue(o)
    ensures forall i :: 0 <= i < |log + [o]| && (log + [o])[i].Evicted? ==> EvictedOverdue((log + [o])[i])
  {
  }

  lemma WasArmedStays(s: State, a: Action, deadline: int)
    requires ArmedOnce(s) && WasArmed(s.armed, deadline)
    ensures WasArmed(Step(s, a).armed, deadline)
  {
    var n :| n in s.armed && s.armed[n].deadline == deadline;
    assert n in Step(s, a).armed && Step(s, a).armed[n] == s.armed[n];
  }

  lemma EndsBeforeStays(s: State, a: Action, wake: int)
    requires ArmedOnce(s) && EndsBeforeArmed(s.armed, wake)
    ensures EndsBeforeArmed(Step(s, a).armed, wake)
  {
    var n :| n in s.armed && wake <= s.armed[n].deadline < wake + 1_000_000;
    assert n in Step(s, a).armed && Step(s, a).armed[n] == s.armed[n];
  }

  lemma PushedWasArmed(s: State)
    requires s.rpc.Stamped?
    ensures WasArmed(ReceiverStep(s).armed, s.rpc.readAt + s.duration)
  {
    assert s.rpc.msg.serial in ReceiverStep(s).armed;
  }

  lemma QueueOnlyArmed(s: State, a: Action)
    requires ArmedOnce(s) && OnlyArmed(s)
    ensures forall t <- Step(s, a).queue :: WasArmed(Step(s, a).armed, t.deadline)
  {
    forall t <- Step(s, a).queue
      ensures WasArmed(Step(s, a).armed, t.deadline)
    {
      if a.Receiver? && s.rpc.Stamped? && t !in s.queue {
        PushedWasArmed(s);
      } else {
        if a.Receiver? && s.rpc.Reported? {
          WithoutFirstElements(s.queue, HasId(s.rpc.first.key));
        } else if a.TimerThread? && s.tpc.Sweeping? {
          WithoutFirstElements(s.queue, ExpiredBy(s.tpc.snapshot));
        }
        WasArmedStays(s, a, t.deadline);
      }
    }
  }

  /** The pool thread reads its deadlines off the queue and sleeps for what it has read. */
  lemma TimerOnlyArmed(s: State)
    requires OnlyArmed(s)
    ensures var s' := TimerStep(s);
            && s'.armed == s.armed
            && (s'.tpc.InFlight? ==> WasArmed(s.armed, s'.tpc.timer.deadline))
            && (s'.tpc.FrontRead? ==> WasArmed(s.armed, s'.tpc.front))
            && (s'.tpc.Sleeping? && s'.tpc.wake > s'.tpc.from ==> EndsBeforeArmed(s.armed, s'.tpc.wake))
  {
    if s.tpc.FrontRead? {
      WakeBounds(s.now, s.tpc.front);
      var n :| n in s.armed && s.armed[n].deadline == s.tpc.front;
    }
  }

  lemma OnlyArmedKept(s: State, a: Action)
    requires ArmedOnce(s) && OnlyArmed(s)
    ensures OnlyArmed(Step(s, a))
  {
    QueueOnlyArmed(s, a);
    if a.TimerThread? {
      TimerOnlyArmed(s);
    } else {
      assert Step(s, a).tpc == s.tpc;
      if s.tpc.InFlight? { WasArmedStays(s, a, s.tpc.timer.deadline); }
      if s.tpc.FrontRead? { WasArmedStays(s, a, s.tpc.front); }
      if s.tpc.Sleeping? && s.tpc.wake > s.tpc.from { EndsBeforeStays(s, a, s.tpc.wake); }
    }
  }

  lemma NotedOverdue(s: State, a: Action)
    requires InOrder(s) && FiredOverdue(s)
    ensures Noted(s, a) != [] && Noted(s, a)[0].Evicted? ==> EvictedOverdue(Noted(s, a)[0])
    ensures Step(s, a).tpc.InFlight? ==> Step(s, a).tpc.timer.deadline < Step(s, a).tpc.snapshot
  {
  }

  lemma FiredOverdueKept(s: State, a: Action)
    requires InOrder(s) && FiredOverdue(s)
    ensures FiredOverdue(Step(s, a))
  {
    StepLog(s, a);
    NotedOverdue(s, a);
    var news := Noted(s, a);
    if news == [] {
      assert Step(s, a).log == s.log;
    } else {
      assert news == [news[0]];
      OverdueAppended(s.log, news[0]);
    }
  }

  /** A timer armed now is the newest: it is pushed behind all others, and a cached message of its key is its own. */
  lemma NewestArmedStamped(s: State)
    requires InOrder(s) && KeyKnown(s) && ArmedOnce(s) && QueueInTime(s) && NewestArmed(s) && s.rpc.Stamped?
    ensures NewestArmed(ReceiverStep(s))
  {
    var s', m := ReceiverStep(s), s.rpc.msg;
    forall k <- s'.cache | s'.cache[k].serial in s'.armed
      ensures NoLaterTimer(s'.queue, k, s'.armed[s'.cache[k].serial].deadline)
    {
      if k != m.key {
        assert s.cache[k].serial != m.serial;
        assert NoLaterTimer(s.queue, k, s.armed[s.cache[k].serial].deadline);
      }
    }
  }

  lemma NewestArmedRemoved(s: State, pred: Timer -> bool)
    requires NewestArmed(s)
    ensures NewestArmed(s.(queue := WithoutFirst(s.queue, pred)))
  {
    WithoutFirstElements(s.queue, pred);
    forall k <- s.cache | s.cache[k].serial in s.armed
      ensures NoLaterTimer(WithoutFirst(s.queue, pred), k, s.armed[s.cache[k].serial].deadline)
    {
      assert NoLaterTimer(s.queue, k, s.armed[s.cache[k].serial].deadline);
    }
  }

  lemma NewestArmedKept(s: State, a: Action)
    requires InOrder(s) && KeyKnown(s) && ArmedOnce(s) && QueueInTime(s) && NewestArmed(s)
    ensures NewestArmed(Step(s, a))
  {
    match a
    case Receiver =>
      if s.rpc.Stamped? {
        NewestArmedStamped(s);
      } else if s.rpc.Reported? {
        NewestArmedRemoved(s, HasId(s.rpc.first.key));
      } else {
        NewestArmedSame(s, a);
      }
    case TimerThread =>
      if s.tpc.Sweeping? {
        NewestArmedRemoved(s, ExpiredBy(s.tpc.snapshot));
      } else {
        NewestArmedSame(s, a);
      }
    case _ => NewestArmedSame(s, a);
  }

  lemma NewestArmedSame(s: State, a: Action)
    requires InOrder(s) && ArmedOnce(s) && NewestArmed(s)
    requires Step(s, a).queue == s.queue && Step(s, a).armed == s.armed
    ensures NewestArmed(Step(s, a))
  {
    var s' := Step(s, a);
    forall k <- s'.cache | s'.cache[k].serial in s'.armed
      ensures NoLaterTimer(s'.queue, k, s'.armed[s'.cache[k].serial].deadline)
    {
      assert k in s.cache && s'.cache[k] == s.cache[k];
    }
  }

  /** A message that is gone stays gone: only fresh messages are added. */
  lemma GoneStaysGone(s: State, a: Action, m: Message)
    requires InOrder(s) && IsGone(s, m)
    ensures IsGone(Step(s, a), m)
  {
    if a.TimerThread? {
      TimerOnlyRemoves(s);
    }
  }

  /** A step only hands out a message that was cached, and removes it. */
  lemma HandOutWasCached(s: State, a: Action)
    requires InOrder(s)
    ensures Noted(s, a) != [] && HandedOut(Noted(s, a)[0]).Some? ==>
              var m := HandedOut(Noted(s, a)[0]).value;
              m.key in s.cache && s.cache[m.key] == m && IsGone(Step(s, a), m)
  {
  }

  lemma HandedOutOnceKept(s: State, a: Action)
    requires InOrder(s) && HandedOutOnce(s)
    ensures HandedOutOnce(Step(s, a))
  {
    var s', news := Step(s, a), Noted(s, a);
    StepLog(s, a);
    HandOutWasCached(s, a);
    forall i | 0 <= i < |s'.log| && HandedOut(s'.log[i]).Some?
      ensures IsGone(s', HandedOut(s'.log[i]).value)
    {
      if i < |s.log| {
        assert s'.log[i] == s.log[i];
        GoneStaysGone(s, a, HandedOut(s.log[i]).value);
      }
    }
  }

  lemma MapSizes<K, V>(m: map<K, V>, k: K, v: V)
    ensures k in m ==> |m - {k}| == |m| - 1
    ensures k !in m ==> |m[k := v]| == |m| + 1
  {
  }

  lemma BalancedReceiver(s: State)
    requires KeyKnown(s) && Balanced(s)
    ensures Balanced(ReceiverStep(s))
  {
  }

  lemma BalancedTimer(s: State)
    requires Balanced(s)
    ensures Balanced(TimerStep(s))
  {
    if s.tpc.InFlight? && s.tpc.timer.id in s.cache {
      MapSizes(s.cache, s.tpc.timer.id, s.cache[s.tpc.timer.id]);
    }
  }

  lemma BalancedKept(s: State, a: Action)
    requires KeyKnown(s) && Balanced(s)
    ensures Balanced(Step(s, a))
  {
    match a
    case Receiver => BalancedReceiver(s);
    case TimerThread => BalancedTimer(s);
    case _ =>
  }

  lemma StepKeeps(s: State, a: Action)
    requires Inv(s)
    ensures Inv(Step(s, a))
  {
    InOrderKept(s, a);
    KeyKnownKept(s, a);
    ArmedOnceKept(s, a);
    NoneStrandedKept(s, a);
    SweptCleanKept(s, a);
    PairsCleanKept(s, a);
    QueueInTimeKept(s, a);
    SleepInTimeKept(s, a);
    OnlyArmedKept(s, a);
    FiredOverdueKept(s, a);
    NewestArmedKept(s, a);
    HandedOutOnceKept(s, a);
    BalancedKept(s, a);
  }

  lemma {:induction false} RunKeeps(s: State, schedule: seq<Action>)
    requires Inv(s)
    ensures Inv(Run(s, schedule))
    decreases |schedule|
  {
    if schedule != [] {
      StepKeeps(s, schedule[0]);
      RunKeeps(Step(s, schedule[0]), schedule[1..]);
    }
  }

  /** All invariants hold after every schedule from a fresh engine. */
  lemma EveryRun(start: int, duration: nat, schedule: seq<Action>)
    ensures Inv(Run(Init(start, duration), schedule))
  {
    RunKeeps(Init(start, duration), schedule);
  }
}
