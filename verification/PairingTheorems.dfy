/** What the invariants say about every interleaving of the receiver thread and the pool thread, and the exact
    conditions under which the two claims that interleavings can break do hold. */
module PairingTheorems {
  import opened BlockingDequeues
  import opened TimerPools
  import opened PairingMachine
  import opened PairingInvariants
  import opened PairingRefinement
  import opened CoarsePairing

  /** No message is stranded: whoever is cached has its own timer in the queue or in the pool thread's hands,
      unless the receiver is arming it right now. Stale timers with the same id do not matter. */
  lemma NoMessageStranded(start: int, duration: nat, schedule: seq<Action>, key: string)
    requires key in Run(Init(start, duration), schedule).cache
    ensures var s := Run(Init(start, duration), schedule);
            var m := s.cache[key];
            || ((s.rpc.Added? || s.rpc.Stamped?) && s.rpc.msg == m)
            || (m.serial in s.armed
                && var own := Timer(s.armed[m.serial].deadline, key);
                   own in s.queue || (s.tpc.InFlight? && s.tpc.timer == own))
  {
    EveryRun(start, duration, schedule);
  }

  /** `add` never throws, and a message object is handed out at most once: never to the pool thread and to the
      receiver both, never twice to one of them. */
  lemma HandedOutAtMostOnce(start: int, duration: nat, schedule: seq<Action>)
    ensures var s := Run(Init(start, duration), schedule);
            && !s.rpc.Rejected?
            && (forall i, j :: 0 <= i < |s.log| && 0 <= j < |s.log| && i != j
                  && (s.log[i].Paired? || s.log[i].Evicted?) && (s.log[j].Paired? || s.log[j].Evicted?)
                  ==> s.log[i].first != s.log[j].first)
            && (forall i, k :: 0 <= i < |s.log| && (s.log[i].Paired? || s.log[i].Evicted?) && k in s.cache
                  ==> s.log[i].first != s.cache[k])
  {
    EveryRun(start, duration, schedule);
    var s := Run(Init(start, duration), schedule);
    forall i, j | 0 <= i < |s.log| && 0 <= j < |s.log| && i != j
                  && (s.log[i].Paired? || s.log[i].Evicted?) && (s.log[j].Paired? || s.log[j].Evicted?)
      ensures s.log[i].first != s.log[j].first
    {
      var a, b := if i < j then i else j, if i < j then j else i;
      assert HandedOut(s.log[a]).Some? && HandedOut(s.log[a]) != HandedOut(s.log[b]);
    }
    forall i, k | 0 <= i < |s.log| && (s.log[i].Paired? || s.log[i].Evicted?) && k in s.cache
      ensures s.log[i].first != s.cache[k]
    {
      assert HandedOut(s.log[i]).Some? && IsGone(s, HandedOut(s.log[i]).value);
    }
  }

  // ---- Lookup and pop are two calls ----

  /** The pop after a positive lookup returns null exactly when the pool thread evicted that key in between. */
  lemma PopFailsExactly(start: int, duration: nat, schedule: seq<Action>)
    requires Run(Init(start, duration), schedule).rpc.Found?
    ensures var s := Run(Init(start, duration), schedule);
            ReceiverStep(s).rpc.Crashed? <==> EvictedSince(s.log, s.rpc.since, s.rpc.msg.key)
  {
    EveryRun(start, duration, schedule);
  }

  /** The race is real for every key and timeout: the second message looks up, the timer evicts, the pop comes back
      empty. */
  lemma PopCanFail(start: int, duration: nat, key: string)
    ensures exists schedule :: Run(Init(start, duration), schedule).rpc.Crashed?
  {
    var prefix := ToInFlight(duration, key);
    InFlightState(start, duration, key);
    var s := Run(Init(start, duration), prefix);
    var s1 := Step(s, Arrive(key));
    var s2 := ReceiverStep(s1);
    assert s2.rpc.Found? && s2.tpc == s.tpc && s2.cache == s.cache;
    var s3 := TimerStep(s2);
    assert s3.rpc == s2.rpc && key !in s3.cache;
    var s4 := ReceiverStep(s3);
    RunFour(s, Arrive(key), Receiver, TimerThread, Receiver);
    RunConcat(Init(start, duration), prefix, [Arrive(key), Receiver, TimerThread, Receiver]);
    assert Run(Init(start, duration), prefix + [Arrive(key), Receiver, TimerThread, Receiver]).rpc.Crashed?;
  }

  // ---- Received against paired, expired and waiting ----

  /** While no message is in hand, received = 2 * paired + expired + waiting exactly when no timer ever fired for a
      key that was not cached. */
  lemma BalanceExactly(start: int, duration: nat, schedule: seq<Action>)
    requires Run(Init(start, duration), schedule).rpc.Idle?
    ensures var s := Run(Init(start, duration), schedule);
            && s.received == 2 * s.paired + EvictedIn(s.log) + |s.cache|
            && s.expired == EvictedIn(s.log) + StaleIn(s.log)
            && (s.received == 2 * s.paired + s.expired + |s.cache| <==> StaleIn(s.log) == 0)
  {
    EveryRun(start, duration, schedule);
    RunTallied(Init(start, duration), schedule);
  }

  /** A pair that completes while its timer is in flight is counted as expired too. */
  lemma BalanceCanFail(start: int, duration: nat, key: string)
    ensures exists schedule :: var s := Run(Init(start, duration), schedule);
              s.rpc.Idle? && s.received != 2 * s.paired + s.expired + |s.cache|
  {
    var prefix := ToInFlight(duration, key);
    InFlightState(start, duration, key);
    var s := Run(Init(start, duration), prefix);
    PairAlone(s, key);
    var s1 := Run(s, Alone(key));
    assert s1.cache == map[];
    RunConcat(s, Alone(key), [TimerThread]);
    RunOne(s1, TimerThread);
    RunConcat(Init(start, duration), prefix, Alone(key) + [TimerThread]);
    assert Run(Init(start, duration), prefix + (Alone(key) + [TimerThread])) == TimerStep(s1);
  }

  // ---- What a finished sweep guarantees ----

  /** The timer was pushed before any sweep that had passed its deadline finished. */
  predicate Prompt(a: Arming) {
    a.sweptAtPush <= a.deadline
  }

  /** Pushing within the timeout after the clock reading is enough for that. */
  lemma PushedInTimeIsPrompt(start: int, duration: nat, schedule: seq<Action>, n: nat)
    requires n in Run(Init(start, duration), schedule).armed
    ensures var a := Run(Init(start, duration), schedule).armed[n];
            && a.deadline == a.readAt + duration
            && (a.pushedAt - a.readAt <= duration ==> Prompt(a))
  {
    EveryRun(start, duration, schedule);
    RunKeepsDuration(Init(start, duration), schedule);
  }

  /** Let T be the snapshot of the last sweep that had finished when a pair's first half was popped. Its deadline is
      at or past T, so it was armed no earlier than T - duration, exactly when its timer was pushed promptly; that is so
      whenever no more than the timeout passed between the clock reading and the push. */
  lemma PairsAreFreshExactly(start: int, duration: nat, schedule: seq<Action>, i: nat)
    requires var s := Run(Init(start, duration), schedule); i < |s.log| && s.log[i].Paired?
    ensures var s := Run(Init(start, duration), schedule);
            var o := s.log[i];
            && o.first.serial in s.armed
            && var a := s.armed[o.first.serial];
            && a.deadline == a.readAt + duration
            && (a.deadline >= o.swept <==> Prompt(a))
            && (Prompt(a) ==> a.readAt >= o.swept - duration)
            && (a.pushedAt - a.readAt <= duration ==> Prompt(a))
  {
    EveryRun(start, duration, schedule);
    RunKeepsDuration(Init(start, duration), schedule);
    var s := Run(Init(start, duration), schedule);
    assert PairClean(s.armed, s.log[i]);
  }

  /** The arming record a waiting message has, or gets when the receiver takes its next steps without delay. */
  function ArmingOf(s: State, m: Message): Arming {
    if m.serial in s.armed then s.armed[m.serial]
    else if s.rpc.Stamped? then Arming(s.rpc.readAt, s.rpc.readAt + s.duration, s.now, s.swept)
    else Arming(s.now, s.now + s.duration, s.now, s.swept)
  }

  /** The same for all messages still waiting once a sweep with snapshot T has finished, also those whose timer the
      receiver is still arming; one whose clock reading is still to come cannot be late at all. */
  lemma WaitingIsFreshExactly(start: int, duration: nat, schedule: seq<Action>, key: string)
    requires key in Run(Init(start, duration), schedule).cache
    ensures var s := Run(Init(start, duration), schedule);
            var m := s.cache[key];
            var a := ArmingOf(s, m);
            && (m.serial in s.armed || ((s.rpc.Added? || s.rpc.Stamped?) && s.rpc.msg == m))
            && (a.deadline >= s.swept <==> Prompt(a))
            && (a.pushedAt - a.readAt <= duration ==> a.deadline >= s.swept)
            && (m.serial !in s.armed && s.rpc.Stamped? ==> ReceiverStep(s).armed[m.serial] == a)
            && (m.serial !in s.armed && s.rpc.Added? ==>
                  Prompt(a) && ReceiverStep(ReceiverStep(s)).armed[m.serial] == a)
  {
    EveryRun(start, duration, schedule);
    RunKeepsDuration(Init(start, duration), schedule);
    var s := Run(Init(start, duration), schedule);
    assert ArmingNow(s.rpc, s.cache[key]) || OwnTimerLive(s, s.cache[key]);
  }

  lemma {:induction false} RunKeepsDuration(s: State, schedule: seq<Action>)
    ensures Run(s, schedule).duration == s.duration
    decreases |schedule|
  {
    if schedule != [] {
      RunKeepsDuration(Step(s, schedule[0]), schedule[1..]);
    }
  }

  /** A timer is stamped for the first message, and a whole sweep goes by before it is queued. */
  lemma OvertakenPush(s: State, m: Message)
    requires s.rpc == Stamped(m, s.now) && s.tpc == Top && s.queue == []
    ensures var late := Run(s, [Tick(s.duration + 1), TimerThread, TimerThread, Receiver]);
            late.cache == s.cache
            && late.armed
               == s.armed[m.serial := Arming(s.now, s.now + s.duration, s.now + s.duration + 1, s.now + s.duration + 1)]
  {
    RunFour(s, Tick(s.duration + 1), TimerThread, TimerThread, Receiver);
    var s1 := Step(s, Tick(s.duration + 1));
    var s2 := TimerStep(s1);
    assert s2 == s1.(tpc := Sweeping(s1.now));
    var s3 := TimerStep(s2);
    assert s3 == s2.(tpc := AtFront, swept := s1.now);
  }

  /** A push can be late: the clock is read, a whole sweep goes by, and only then the timer is queued. */
  lemma LatePushHappens(start: int, duration: nat, key: string)
    ensures exists schedule :: var s := Run(Init(start, duration), schedule);
              key in s.cache && s.cache[key].serial in s.armed && !Prompt(s.armed[s.cache[key].serial])
  {
    var s0, m := Init(start, duration), Message(0, key);
    var half := [Arrive(key), Receiver, Receiver, Receiver];
    var late := [Tick(duration + 1), TimerThread, TimerThread, Receiver];
    RunFour(s0, Arrive(key), Receiver, Receiver, Receiver);
    var s1 := Step(s0, Arrive(key));
    assert ReceiverStep(s1) == s1.(rpc := Missing(m));
    var s := Run(s0, half);
    assert s.rpc == Stamped(m, start) && s.cache == map[key := m];
    OvertakenPush(s, m);
    RunConcat(s0, half, late);
    assert Run(s0, half + late) == Run(s, late);
  }

  // ---- The sleep ----

  /** The queue is sorted at all times, and whenever the pool thread sleeps, no queued timer that was not overdue when
      the sleep began falls due before the sleep ends; that covers timers queued during the sleep and what is left
      after the front is deleted. */
  lemma NeverOversleeps(start: int, duration: nat, schedule: seq<Action>)
    ensures var s := Run(Init(start, duration), schedule);
            && Sorted(s.queue)
            && (s.tpc.Sleeping? ==> forall t <- s.queue :: t.deadline >= s.tpc.from ==> t.deadline >= s.tpc.wake)
  {
    EveryRun(start, duration, schedule);
  }

  /** The sleep that is about to begin ends less than a millisecond before the deadline it was computed from, no
      timer in the queue has an earlier deadline, and some message was armed with exactly that deadline. */
  lemma SleepIsTight(start: int, duration: nat, schedule: seq<Action>)
    requires var s := Run(Init(start, duration), schedule); s.tpc.FrontRead? && s.tpc.front >= s.now
    ensures var s := Run(Init(start, duration), schedule);
            var s' := TimerStep(s);
            && s'.tpc.Sleeping? && s'.tpc.wake <= s.tpc.front < s'.tpc.wake + 1_000_000
            && (forall t <- s.queue :: t.deadline >= s.tpc.front)
            && WasArmed(s.armed, s.tpc.front)
  {
    EveryRun(start, duration, schedule);
    WakeBounds(Run(Init(start, duration), schedule).now, Run(Init(start, duration), schedule).tpc.front);
  }

  /** Undisturbed, the pool thread sleeps for the front of the queue: to within a millisecond before its deadline,
      or not at all when that is past. */
  lemma SleepsForFront(s: State)
    requires s.tpc.AtFront? && s.queue != []
    ensures var s' := TimerStep(TimerStep(s));
            && s'.tpc.Sleeping? && s'.tpc.from == s.now
            && (if s.queue[0].deadline < s.now then s'.tpc.wake == s.now
                else s.now <= s'.tpc.wake <= s.queue[0].deadline < s'.tpc.wake + 1_000_000)
  {
    WakeBounds(s.now, s.queue[0].deadline);
  }

  /** In every run a sleep that takes time ends within a millisecond before a deadline that was armed; and every
      sleep is over exactly when the clock has reached its end. */
  lemma SleepsForAnArmedTimer(start: int, duration: nat, schedule: seq<Action>)
    requires Run(Init(start, duration), schedule).tpc.Sleeping?
    ensures var s := Run(Init(start, duration), schedule);
            && s.tpc.from <= s.now
            && (s.tpc.wake > s.tpc.from ==> EndsBeforeArmed(s.armed, s.tpc.wake))
            && (TimerStep(s).tpc.Top? <==> s.now >= s.tpc.wake)
  {
    EveryRun(start, duration, schedule);
  }

  /** After a sweep the pool thread waits exactly as long as the queue is empty. */
  lemma WaitsWhileEmpty(s: State)
    requires s.tpc.AtFront?
    ensures if s.queue == [] then TimerStep(s) == s else TimerStep(s).tpc.FrontRead?
  {
  }

  // ---- The big steps do what they are named for ----

  /** One message handled: it is stored or paired, and nothing of it is left to do. */
  lemma HandleDoes(s: State, key: string)
    requires s.rpc.Idle? && (key in s.cache ==> s.cache[key].key == key)
    ensures var s' := Run(s, Expand(s, Handle(key)));
            && s'.received == s.received + 1 && s'.rpc.Idle? && s'.now == s.now
            && (if key in s.cache then key !in s'.cache && s'.paired == s.paired + 1
                else key in s'.cache && s'.cache[key].serial == |s.arrived| && s'.paired == s.paired)
  {
    if key in s.cache { PairAlone(s, key); } else { StoreAlone(s, key); }
  }

  /** A turn of the pool thread in a sweep that finds an expired timer fires it and evicts its message. */
  lemma PoolTurnFires(s: State)
    requires AboutToFire(s) && OneTimerPerKey(s.queue, s.cache)
    ensures var s', t := Run(s, Expand(s, PoolTurn)), s.queue[FirstMatch(s.queue, ExpiredBy(s.tpc.snapshot))];
            && s'.expired == s.expired + 1 && t.id in s.cache && t.id !in s'.cache
            && |s'.queue| == |s.queue| - 1 && s'.tpc == s.tpc
  {
    OneTimerRemove(s.queue, s.cache, FirstMatch(s.queue, ExpiredBy(s.tpc.snapshot)));
    FireAlone(s);
  }

  /** Any other turn of the pool thread is one of its steps, and waiting lets the time pass. */
  lemma OtherBigSteps(s: State, span: nat)
    ensures !AboutToFire(s) ==> Run(s, Expand(s, PoolTurn)) == TimerStep(s)
    ensures Run(s, Expand(s, Wait(span))) == s.(now := s.now + span)
  {
    RunOne(s, TimerThread);
    RunOne(s, Tick(span));
  }
}
