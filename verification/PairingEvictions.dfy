/** Whether a message is evicted only once its own timeout has passed: in runs of big steps always, under interleaving
    exactly when a visible condition holds at the moment its key's timer fires. */
module PairingEvictions {
  import opened BlockingDequeues
  import opened TimerPools
  import opened PairingMachine
  import opened PairingInvariants
  import opened CoarsePairing

  /** The clock reading for the message's own timer has been taken, and the deadline it gives lies before `at`. */
  predicate TimedOut(s: State, m: Message, at: int) {
    if m.serial in s.armed then s.armed[m.serial].deadline < at
    else s.rpc.Stamped? && s.rpc.msg == m && s.rpc.readAt + s.duration < at
  }

  /** The timer that was armed for the message itself. */
  predicate IsOwn(s: State, m: Message, t: Timer) {
    m.serial in s.armed && t == Timer(s.armed[m.serial].deadline, m.key)
  }

  /** What can be seen when a timer fires: the receiver is not just arming a timer for the message that reaches to `at`
      or beyond, and no such timer with its key is queued. */
  ghost predicate NoTimerAhead(s: State, m: Message, at: int) {
    && !(s.rpc.Added? && s.rpc.msg == m)
    && !(s.rpc.Stamped? && s.rpc.msg == m && s.rpc.readAt + s.duration >= at)
    && forall t <- s.queue :: t.id == m.key ==> t.deadline < at
  }

  lemma DueExactly(s: State, at: int)
    requires Inv(s) && s.tpc.InFlight? && s.tpc.timer.id in s.cache && at >= s.tpc.snapshot
    ensures var m := s.cache[s.tpc.timer.id]; TimedOut(s, m, at) <==> NoTimerAhead(s, m, at)
    ensures var m := s.cache[s.tpc.timer.id]; IsOwn(s, m, s.tpc.timer) ==> TimedOut(s, m, at)
  {
    var k := s.tpc.timer.id;
    assert ArmingNow(s.rpc, s.cache[k]) || OwnTimerLive(s, s.cache[k]);
    assert s.cache[k].serial in s.armed ==> NoLaterTimer(s.queue, k, s.armed[s.cache[k].serial].deadline);
  }

  /** In every interleaving, for every time from the sweep's snapshot on, in particular the snapshot itself and the
      moment of the eviction: the message that a fired timer evicts has timed out by then exactly when no timer of its
      key that reaches to that time or beyond is queued or being armed. Its own timer never evicts it early. */
  lemma EvictionIsDueExactly(start: int, duration: nat, schedule: seq<Action>, at: int)
    requires var s := Run(Init(start, duration), schedule);
             s.tpc.InFlight? && s.tpc.timer.id in s.cache && at >= s.tpc.snapshot
    ensures var s := Run(Init(start, duration), schedule);
            var m := s.cache[s.tpc.timer.id];
            && TimerStep(s).log == s.log + [Evicted(m, s.tpc.timer, s.tpc.snapshot)] && s.tpc.snapshot <= s.now
            && (TimedOut(s, m, at) <==> NoTimerAhead(s, m, at))
            && (IsOwn(s, m, s.tpc.timer) ==> TimedOut(s, m, at))
  {
    EveryRun(start, duration, schedule);
    DueExactly(Run(Init(start, duration), schedule), at);
  }

  // ---- Another message's timer ----

  /** A message's own timer is in flight while the message is paired; the next message of the key is stored, and the
      timer in flight evicts it before its own timer is armed. */
  lemma EarlyEvictionHappens(start: int, duration: nat, key: string)
    ensures exists schedule :: var s := Run(Init(start, duration), schedule);
              && |s.log| > 0 && s.log[|s.log| - 1].Evicted?
              && s.log[|s.log| - 1].first.serial !in s.armed && s.rpc.Added?
  {
    var s0, prefix := Init(start, duration), ToInFlight(duration, key);
    InFlightState(start, duration, key);
    var s := Run(s0, prefix);
    PairAlone(s, key);
    var s1 := Run(s, Alone(key));
    var last := [Arrive(key), Receiver, Receiver, TimerThread];
    EvictedWhenAdded(s1, key);
    RunConcat(s, Alone(key), last);
    RunConcat(s0, prefix, Alone(key) + last);
    assert Run(s0, prefix + (Alone(key) + last)) == Run(s1, last);
  }

  lemma EvictedWhenAdded(s: State, key: string)
    requires s.rpc.Idle? && s.tpc.InFlight? && s.tpc.timer.id == key && key !in s.cache && |s.arrived| !in s.armed
    ensures var s' := Run(s, [Arrive(key), Receiver, Receiver, TimerThread]);
            var m := Message(|s.arrived|, key);
            s'.rpc == Added(m) && s'.armed == s.armed && m.serial !in s'.armed
            && s'.log == s.log + [Stored(m), Evicted(m, s.tpc.timer, s.tpc.snapshot)]
  {
    RunFour(s, Arrive(key), Receiver, Receiver, TimerThread);
    var m := Message(|s.arrived|, key);
    var s1 := Step(s, Arrive(key));
    var s2 := ReceiverStep(s1);
    assert s2 == s1.(rpc := Missing(m));
    var s3 := ReceiverStep(s2);
    assert s3.rpc == Added(m) && s3.tpc == s.tpc && s3.cache == s.cache[key := m] && s3.log == s.log + [Stored(m)];
    assert TimerStep(s3).log == s3.log + [Evicted(m, s.tpc.timer, s.tpc.snapshot)];
  }

  /** While a timer of the key is in flight: the waiting message is paired, the next one is stored and evicted by that
      timer, and one more is stored. The timer armed for the evicted message stays in the queue. */
  function LeavesStale(key: string): seq<Action> {
    (Alone(key) + Alone(key)) + ([TimerThread, Tick(1)] + Alone(key))
  }

  /** Its first half: the pair is reported, the next message is stored, and its timer is queued. */
  lemma NextIsStored(s: State, key: string)
    requires s.rpc.Idle? && s.queue == [] && key in s.cache && s.cache[key].key == key
    ensures var s', m := Run(s, Alone(key) + Alone(key)), Message(|s.arrived| + 1, key);
            && s'.rpc.Idle? && s'.tpc == s.tpc && s'.now == s.now && s'.duration == s.duration
            && s'.queue == [Timer(s.now + s.duration, key)] && key in s'.cache && |s'.arrived| == |s.arrived| + 2
  {
    PairAlone(s, key);
    var s1 := Run(s, Alone(key));
    assert s1.queue == [] && key !in s1.cache;
    StoreAlone(s1, key);
    RunConcat(s, Alone(key), Alone(key));
  }

  /** Its second half: that message is evicted, and one more is stored. */
  lemma LaterIsStored(s: State, key: string)
    requires s.rpc.Idle? && s.tpc.InFlight? && s.tpc.timer.id == key && key in s.cache
    ensures var s', m := Run(s, [TimerThread, Tick(1)] + Alone(key)), Message(|s.arrived|, key);
            && s'.rpc.Idle? && s'.tpc == Sweeping(s.tpc.snapshot) && s'.now == s.now + 1 && s'.duration == s.duration
            && s'.queue == s.queue + [Timer(s.now + 1 + s.duration, key)]
            && key in s'.cache && s'.cache[key] == m
            && m.serial in s'.armed && s'.armed[m.serial].deadline == s.now + 1 + s.duration
  {
    RunTwo(s, TimerThread, Tick(1));
    var s1 := Run(s, [TimerThread, Tick(1)]);
    assert s1.rpc.Idle? && s1.tpc == Sweeping(s.tpc.snapshot) && s1.queue == s.queue && key !in s1.cache;
    StoreAlone(s1, key);
    RunConcat(s, [TimerThread, Tick(1)], Alone(key));
  }

  lemma StaleIsLeft(s: State, key: string)
    requires s.rpc.Idle? && s.tpc.InFlight? && s.tpc.timer.id == key && s.queue == []
    requires key in s.cache && s.cache[key].key == key
    ensures var s', m := Run(s, LeavesStale(key)), Message(|s.arrived| + 2, key);
            && s'.rpc.Idle? && s'.tpc == Sweeping(s.tpc.snapshot) && s'.now == s.now + 1 && s'.duration == s.duration
            && s'.queue == [Timer(s.now + s.duration, key), Timer(s.now + 1 + s.duration, key)]
            && key in s'.cache && s'.cache[key] == m
            && m.serial in s'.armed && s'.armed[m.serial].deadline == s.now + 1 + s.duration
  {
    NextIsStored(s, key);
    LaterIsStored(Run(s, Alone(key) + Alone(key)), key);
    RunConcat(s, Alone(key) + Alone(key), [TimerThread, Tick(1)] + Alone(key));
  }

  /** The sweep ends without a firing, the pool thread is woken late, and the next sweep takes the front timer. */
  function ToNextSweep(span: nat): seq<Action> {
    [TimerThread, TimerThread, Tick(span), TimerThread] + ([TimerThread, TimerThread] + [TimerThread])
  }

  /** The sweep is over, and the pool thread oversleeps. */
  lemma SleepsLate(s: State, span: nat)
    requires s.tpc.Sweeping? && s.queue != [] && NoneBefore(s.queue, s.tpc.snapshot)
    requires s.queue[0].deadline < s.now + span
    ensures Run(s, [TimerThread, TimerThread, Tick(span), TimerThread])
            == s.(now := s.now + span, swept := s.tpc.snapshot, tpc := Sleeping(s.now + span, s.now + span))
  {
    RunFour(s, TimerThread, TimerThread, Tick(span), TimerThread);
    var s1 := TimerStep(s);
    assert s1 == s.(tpc := AtFront, swept := s.tpc.snapshot);
    WakeBounds(s.now + span, s.queue[0].deadline);
  }

  lemma NextSweepTakesFront(s: State, span: nat)
    requires s.tpc.Sweeping? && s.queue != [] && NoneBefore(s.queue, s.tpc.snapshot)
    requires s.queue[0].deadline < s.now + span
    ensures var s' := Run(s, ToNextSweep(span));
            && s'.tpc == InFlight(s.now + span, s.queue[0]) && s'.cache == s.cache && s'.armed == s.armed
  {
    var front, late := s.queue[0], s.now + span;
    SleepsLate(s, span);
    var s4 := Run(s, [TimerThread, TimerThread, Tick(span), TimerThread]);
    RunTwo(s4, TimerThread, TimerThread);
    var s6 := Run(s4, [TimerThread, TimerThread]);
    assert s6 == s4.(tpc := Sweeping(late));
    assert ExpiredBy(late)(front) && FirstMatch(s6.queue, ExpiredBy(late)) == 0;
    RunOne(s6, TimerThread);
    RunConcat(s4, [TimerThread, TimerThread], [TimerThread]);
    RunConcat(s, [TimerThread, TimerThread, Tick(span), TimerThread], [TimerThread, TimerThread] + [TimerThread]);
  }

  /** A timer that is not the message's own need not evict it early: when both have expired, the older one fires
      first. */
  lemma ForeignTimerCanBeDue(start: int, duration: nat, key: string)
    ensures exists schedule :: var s := Run(Init(start, duration), schedule);
              && s.tpc.InFlight? && s.tpc.timer.id in s.cache
              && var m := s.cache[s.tpc.timer.id];
                 !IsOwn(s, m, s.tpc.timer) && TimedOut(s, m, s.tpc.snapshot)
  {
    var s0, prefix := Init(start, duration), ToInFlight(duration, key);
    InFlightState(start, duration, key);
    var s := Run(s0, prefix);
    StaleIsLeft(s, key);
    var s1 := Run(s, LeavesStale(key));
    NextSweepTakesFront(s1, duration + 1);
    RunConcat(s, LeavesStale(key), ToNextSweep(duration + 1));
    RunConcat(s0, prefix, LeavesStale(key) + ToNextSweep(duration + 1));
    assert Run(s0, prefix + (LeavesStale(key) + ToNextSweep(duration + 1))) == Run(s1, ToNextSweep(duration + 1));
  }

  // ---- Runs of big steps ----

  /** Every eviction so far was by the message's own timer, after its deadline. */
  ghost predicate OwnEvictions(s: State) {
    forall i :: 0 <= i < |s.log| && s.log[i].Evicted? ==> OwnEviction(s, s.log[i])
  }

  predicate OwnEviction(s: State, o: Observation)
    requires o.Evicted?
  {
    IsOwn(s, o.first, o.timer) && o.timer.deadline < o.snapshot
  }

  lemma OnlyTimerIsOwn(q: seq<Timer>, cache: map<string, Message>, i: nat, own: Timer)
    requires OneTimerPerKey(q, cache) && i < |q| && own in q && own.id == q[i].id
    ensures own == q[i]
  {
    var j :| 0 <= j < |q| && q[j] == own;
    if i != j {
      OneTimerRemove(q, cache, i);
      var rest := q[..i] + q[i + 1..];
      assert own in rest by {
        assert rest[if j < i then j else j - 1] == own;
      }
      var k := if j < i then j else j - 1;
      OneTimerRemove(rest, cache - {q[i].id}, k);
      assert false;
    }
  }

  lemma FireIsOwn(s: State)
    requires Agree(s) && Inv(s) && AboutToFire(s)
    ensures var t := s.queue[FirstMatch(s.queue, ExpiredBy(s.tpc.snapshot))];
            t.id in s.cache && IsOwn(s, s.cache[t.id], t) && t.deadline < s.tpc.snapshot
  {
    var i := FirstMatch(s.queue, ExpiredBy(s.tpc.snapshot));
    OneTimerRemove(s.queue, s.cache, i);
    var m := s.cache[s.queue[i].id];
    assert ArmingNow(s.rpc, m) || OwnTimerLive(s, m);
    OnlyTimerIsOwn(s.queue, s.cache, i, Timer(s.armed[m.serial].deadline, m.key));
    assert ExpiredBy(s.tpc.snapshot)(s.queue[i]);
  }

  /** Entries of the history keep their meaning while armings are only added. */
  lemma OwnEvictionsExtend(s: State, s': State, o: Observation)
    requires OwnEvictions(s) && s'.log == s.log + [o]
    requires forall n <- s.armed :: n in s'.armed && s'.armed[n] == s.armed[n]
    requires o.Evicted? ==> OwnEviction(s', o)
    ensures OwnEvictions(s')
  {
    forall i | 0 <= i < |s'.log| && s'.log[i].Evicted?
      ensures OwnEviction(s', s'.log[i])
    {
      if i < |s.log| {
        assert s'.log[i] == s.log[i] && OwnEviction(s, s.log[i]);
      }
    }
  }

  lemma BigStepKeepsOwn(s: State, b: BigStep)
    requires Agree(s) && Inv(s) && OwnEvictions(s)
    ensures OwnEvictions(Run(s, Expand(s, b)))
  {
    match b {
      case Handle(key) =>
        if key in s.cache {
          PairAlone(s, key);
          OwnEvictionsExtend(s, Run(s, Alone(key)), Paired(s.cache[key], Message(|s.arrived|, key), s.swept));
        } else {
          StoreAlone(s, key);
          OwnEvictionsExtend(s, Run(s, Alone(key)), Stored(Message(|s.arrived|, key)));
        }
      case PoolTurn =>
        if AboutToFire(s) {
          FireIsOwn(s);
          FireAlone(s);
          var t := s.queue[FirstMatch(s.queue, ExpiredBy(s.tpc.snapshot))];
          OwnEvictionsExtend(s, Run(s, [TimerThread, TimerThread]), Evicted(s.cache[t.id], t, s.tpc.snapshot));
        } else {
          RunOne(s, TimerThread);
          QuietTurn(s);
        }
      case Wait(span) => RunOne(s, Tick(span));
    }
  }

  lemma {:induction false} BigRunKeepsOwn(s: State, bs: seq<BigStep>)
    requires Agree(s) && Inv(s) && OwnEvictions(s)
    ensures OwnEvictions(BigRun(s, bs))
    decreases |bs|
  {
    if bs != [] {
      var sched := Expand(s, bs[0]);
      BigStepKeepsOwn(s, bs[0]);
      BigStepKeepsAgreement(s, bs[0]);
      RunKeeps(s, sched);
      BigRunKeepsOwn(Run(s, sched), bs[1..]);
      RunConcat(s, sched, ExpandAll(Run(s, sched), bs[1..]));
    }
  }

  /** In every run of big steps each evicted message was evicted by its own timer, whose deadline lies before the
      snapshot of the sweep that evicted it. */
  lemma CoarseEvictionsAreDue(start: int, duration: nat, bs: seq<BigStep>, i: nat)
    requires var s := BigRun(Init(start, duration), bs); i < |s.log| && s.log[i].Evicted?
    ensures var s := BigRun(Init(start, duration), bs);
            var o := s.log[i];
            && o.first.serial in s.armed
            && o.timer == Timer(s.armed[o.first.serial].deadline, o.first.key)
            && o.timer.deadline < o.snapshot
  {
    EveryRun(start, duration, []);
    BigRunKeepsOwn(Init(start, duration), bs);
  }
}
