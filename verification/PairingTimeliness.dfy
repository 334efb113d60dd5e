/** From one end to the other: a waiting message whose deadline has passed is gone once the pool thread has had its
    turns, in every interleaving. */
module PairingTimeliness {
  import opened BlockingDequeues
  import opened TimerPools
  import opened PairingMachine
  import opened PairingInvariants
  import opened PairingSweeps

  /** The message waits, its timer is armed, and the clock has passed the timer's deadline. */
  predicate Overdue(s: State, m: Message) {
    && m.key in s.cache && s.cache[m.key] == m
    && m.serial in s.armed && s.armed[m.serial].deadline < s.now
  }

  lemma RunOneMore(s: State, a: Action, schedule: seq<Action>)
    ensures Run(s, [a] + schedule) == Run(Step(s, a), schedule)
  {
    assert ([a] + schedule)[1..] == schedule;
  }

  lemma {:induction false} RunKeepsGone(s: State, schedule: seq<Action>, m: Message)
    requires Inv(s) && IsGone(s, m)
    ensures IsGone(Run(s, schedule), m)
    decreases |schedule|
  {
    if schedule != [] {
      StepKeeps(s, schedule[0]);
      GoneStaysGone(s, schedule[0], m);
      RunKeepsGone(Step(s, schedule[0]), schedule[1..], m);
    }
  }

  /** Time and armings only grow: an overdue message stays overdue until it is gone. */
  lemma OverdueOrGone(s: State, a: Action, m: Message)
    requires Inv(s) && Overdue(s, m)
    ensures Overdue(Step(s, a), m) || IsGone(Step(s, a), m)
    ensures Overdue(Step(s, a), m) ==> Step(s, a).armed[m.serial] == s.armed[m.serial]
  {
    var s' := Step(s, a);
    StepKeeps(s, a);
    assert IsHandled(s, m);
    StillHandled(s, a, m);
    ArmingStays(s, a, m.serial);
  }

  lemma StillHandled(s: State, a: Action, m: Message)
    requires InOrder(s) && IsHandled(s, m)
    ensures IsHandled(Step(s, a), m)
  {
  }

  lemma ArmingStays(s: State, a: Action, n: nat)
    requires ArmedOnce(s) && n in s.armed
    ensures n in Step(s, a).armed && Step(s, a).armed[n] == s.armed[n]
    ensures Step(s, a).now >= s.now
  {
  }

  // ---- The way to the next sweep ----

  /** How many turns the pool thread is away from its next sweep. */
  function TurnsAway(pc: TimerPc): nat {
    match pc
    case AtFront => 4
    case FrontRead(_) => 3
    case Sleeping(_, _) => 2
    case Top => 1
    case _ => 0
  }

  /** The message's own timer is queued while no timer is in the pool thread's hands. */
  lemma OwnIsQueued(s: State, m: Message)
    requires Inv(s) && Overdue(s, m) && !s.tpc.InFlight?
    ensures Timer(s.armed[m.serial].deadline, m.key) in s.queue
  {
    assert ArmingNow(s.rpc, s.cache[m.key]) || OwnTimerLive(s, s.cache[m.key]);
  }

  /** The pool thread is held up neither by an empty queue nor by a sleep that lasts past the deadline. */
  lemma OneTurnNearer(s: State, m: Message)
    requires Inv(s) && Overdue(s, m) && TurnsAway(s.tpc) > 0
    ensures var s' := TimerStep(s);
            TurnsAway(s'.tpc) + 1 == TurnsAway(s.tpc) && (s.tpc.Top? ==> s'.tpc == Sweeping(s.now))
  {
    OwnIsQueued(s, m);
    var own := Timer(s.armed[m.serial].deadline, m.key);
    if s.tpc.Sleeping? {
      assert s.tpc.wake > s.tpc.from ==> own.deadline >= s.tpc.wake;
      assert s.now >= s.tpc.wake;
    }
  }

  /** After these steps the message is gone, or a sweep begins whose snapshot lies past its deadline. */
  ghost predicate AtSweepOrGone(s: State, m: Message) {
    IsGone(s, m) || (Overdue(s, m) && s.tpc.Sweeping? && s.armed[m.serial].deadline < s.tpc.snapshot)
  }

  ghost predicate ComesToSweep(s: State, schedule: seq<Action>, m: Message) {
    exists n: nat :: n <= |schedule| && AtSweepOrGone(Run(s, schedule[..n]), m)
  }

  lemma ComesOneLater(s: State, schedule: seq<Action>, m: Message)
    requires schedule != [] && ComesToSweep(Step(s, schedule[0]), schedule[1..], m)
    ensures ComesToSweep(s, schedule, m)
  {
    var n: nat :| n <= |schedule[1..]| && AtSweepOrGone(Run(Step(s, schedule[0]), schedule[1..][..n]), m);
    assert schedule[..n + 1] == [schedule[0]] + schedule[1..][..n];
    RunOneMore(s, schedule[0], schedule[1..][..n]);
    assert AtSweepOrGone(Run(s, schedule[..n + 1]), m);
  }

  lemma ComesAtOnce(s: State, schedule: seq<Action>, m: Message)
    requires schedule != [] && AtSweepOrGone(Step(s, schedule[0]), m)
    ensures ComesToSweep(s, schedule, m)
  {
    assert schedule[..1] == [schedule[0]] + [];
    RunOneMore(s, schedule[0], []);
    assert AtSweepOrGone(Run(s, schedule[..1]), m);
  }

  lemma OthersKeepPlace(s: State, a: Action)
    requires !a.TimerThread?
    ensures Step(s, a).tpc == s.tpc
  {
  }

  /** One step of anybody: the message is gone, the sweep has begun, or the pool thread is as near as its turns say. */
  lemma StepNearer(s: State, a: Action, m: Message)
    requires Inv(s) && Overdue(s, m) && TurnsAway(s.tpc) > 0
    ensures var s' := Step(s, a);
            || AtSweepOrGone(s', m)
            || (Overdue(s', m) && TurnsAway(s'.tpc) > 0
                && TurnsAway(s'.tpc) + (if a.TimerThread? then 1 else 0) == TurnsAway(s.tpc))
  {
    OverdueOrGone(s, a, m);
    if a.TimerThread? {
      OneTurnNearer(s, m);
    } else {
      OthersKeepPlace(s, a);
    }
  }

  lemma {:induction false} SweepIsReached(s: State, schedule: seq<Action>, m: Message)
    requires Inv(s) && Overdue(s, m) && 0 < TurnsAway(s.tpc) <= PoolSteps(schedule)
    ensures ComesToSweep(s, schedule, m)
    decreases |schedule|
  {
    StepNearer(s, schedule[0], m);
    StepKeeps(s, schedule[0]);
    if AtSweepOrGone(Step(s, schedule[0]), m) {
      ComesAtOnce(s, schedule, m);
    } else {
      SweepIsReached(Step(s, schedule[0]), schedule[1..], m);
      ComesOneLater(s, schedule, m);
    }
  }

  /** Once the clock has passed an armed message's deadline, the pool thread, outside a sweep, needs at most four turns
      of its own to begin a sweep whose snapshot lies past that deadline, unless the message is gone before. */
  lemma NextSweepIsPastDeadline(start: int, duration: nat, before: seq<Action>, schedule: seq<Action>, m: Message)
    requires var s := Run(Init(start, duration), before);
             Overdue(s, m) && 0 < TurnsAway(s.tpc) <= PoolSteps(schedule)
    ensures ComesToSweep(Run(Init(start, duration), before), schedule, m)
  {
    EveryRun(start, duration, before);
    SweepIsReached(Run(Init(start, duration), before), schedule, m);
  }

  // ---- The sweep itself ----

  lemma {:induction false} StaysOverdueOrGoes(s: State, schedule: seq<Action>, m: Message)
    requires Inv(s) && Overdue(s, m)
    ensures var s' := Run(s, schedule);
            IsGone(s', m) || (Overdue(s', m) && s'.armed[m.serial] == s.armed[m.serial])
    decreases |schedule|
  {
    if schedule != [] {
      StepKeeps(s, schedule[0]);
      OverdueOrGone(s, schedule[0], m);
      if IsGone(Step(s, schedule[0]), m) {
        RunKeepsGone(Step(s, schedule[0]), schedule[1..], m);
      } else {
        StaysOverdueOrGoes(Step(s, schedule[0]), schedule[1..], m);
      }
    }
  }

  /** A sweep whose snapshot lies past the deadline leaves the message's own timer neither queued nor in hand. */
  lemma SweepRemoves(s: State, sweep: seq<Action>, snapshot: int, m: Message)
    requires Inv(s) && Overdue(s, m) && s.armed[m.serial].deadline < snapshot
    requires sweep != [] && SweepsThrough(s, sweep, snapshot)
    ensures IsGone(Run(s, sweep), m)
  {
    StaysOverdueOrGoes(s, sweep, m);
    SweepLeavesNothing(s, sweep, snapshot);
    RunKeeps(s, sweep);
    if !IsGone(Run(s, sweep), m) {
      OwnIsQueued(Run(s, sweep), m);
      assert false;
    }
  }

  lemma SweptThenGone(s: State, sweep: seq<Action>, rest: seq<Action>, m: Message)
    requires Inv(s) && IsGone(Run(s, sweep), m)
    ensures IsGone(Run(s, sweep + rest), m)
  {
    RunKeeps(s, sweep);
    RunKeepsGone(Run(s, sweep), rest, m);
    RunConcat(s, sweep, rest);
  }

  lemma GoneWhenSwept(s: State, schedule: seq<Action>, snapshot: int, m: Message)
    requires Inv(s) && Overdue(s, m) && s.armed[m.serial].deadline < snapshot && EndsWithin(s, schedule, snapshot)
    ensures IsGone(Run(s, schedule), m)
  {
    var n: nat :| n <= |schedule| && n > 0 && SweepsThrough(s, schedule[..n], snapshot);
    var sweep, rest := schedule[..n], schedule[n..];
    SweepRemoves(s, sweep, snapshot, m);
    SweptThenGone(s, sweep, rest, m);
    assert schedule == sweep + rest;
  }

  /** In every interleaving: when the pool thread is in a sweep with a snapshot past an armed message's deadline, and
      has had enough turns to finish that sweep, the message is not in the cache, then and ever after. */
  lemma OverdueMessageLeaves(start: int, duration: nat, before: seq<Action>, schedule: seq<Action>, m: Message)
    requires var s := Run(Init(start, duration), before);
             && Overdue(s, m) && (s.tpc.Sweeping? || s.tpc.InFlight?) && s.armed[m.serial].deadline < s.tpc.snapshot
             && PoolSteps(schedule) >= Enough(s, s.tpc.snapshot)
    ensures var s := Run(Run(Init(start, duration), before), schedule);
            m.key in s.cache ==> s.cache[m.key] != m
  {
    EveryRun(start, duration, before);
    EverySweepEnds(start, duration, before, schedule);
    var s := Run(Init(start, duration), before);
    GoneWhenSwept(s, schedule, s.tpc.snapshot, m);
  }

  // ---- The whole way in one bound ----

  function Is(own: Timer): Timer -> bool {
    (t: Timer) => t == own
  }

  /** How many timers stand before it in the queue. */
  function Ahead(q: seq<Timer>, own: Timer): nat {
    FirstMatch(q, Is(own))
  }

  lemma AheadExists(q: seq<Timer>, own: Timer)
    requires own in q
    ensures Ahead(q, own) < |q| && q[Ahead(q, own)] == own
  {
    var i :| 0 <= i < |q| && q[i] == own;
    assert Is(own)(q[i]);
    assert Ahead(q, own) < |q|;
    assert Is(own)(q[Ahead(q, own)]);
  }

  /** Nothing before position i is this timer, and position i is: then i timers stand ahead of it. */
  lemma AheadIs(q: seq<Timer>, own: Timer, i: nat)
    requires i < |q| && q[i] == own
    ensures Ahead(q, own) <= i
  {
    assert Is(own)(q[i]);
  }

  lemma AheadPush(q: seq<Timer>, own: Timer, t: Timer)
    requires own in q
    ensures Ahead(q + [t], own) <= Ahead(q, own)
  {
    AheadExists(q, own);
    AheadIs(q + [t], own, Ahead(q, own));
  }

  /** Removing another timer never moves it back, and moves it forward when the other stood before it. */
  lemma AheadRemoval(q: seq<Timer>, own: Timer, i: nat)
    requires own in q && i < |q| && q[i] != own
    ensures var rest := q[..i] + q[i + 1..];
            own in rest && Ahead(rest, own) <= (if i < Ahead(q, own) then Ahead(q, own) - 1 else Ahead(q, own))
  {
    AheadExists(q, own);
    var p, rest := Ahead(q, own), q[..i] + q[i + 1..];
    var p' := if i < p then p - 1 else p;
    assert rest[p'] == own;
    AheadIs(rest, own, p');
  }

  function OwnTimer(s: State, m: Message): Timer
    requires m.serial in s.armed
  {
    Timer(s.armed[m.serial].deadline, m.key)
  }

  predicate InHand(s: State, own: Timer) {
    s.tpc.InFlight? && s.tpc.timer == own
  }

  /** The turns the pool thread needs before it begins to take the timers of a sweep past the deadline: none inside such
      a sweep but to fire what it holds; an earlier sweep has to end first. */
  function TurnsBefore(s: State, own: Timer): nat {
    match s.tpc
    case Sweeping(snapshot) => if own.deadline < snapshot then 0 else Enough(s, snapshot) + 4
    case InFlight(snapshot, _) => if own.deadline < snapshot then 1 else Enough(s, snapshot) + 4
    case _ => TurnsAway(s.tpc)
  }

  /** How many turns of its own the pool thread needs at most until this timer has fired: one with the timer in hand,
      otherwise two for each timer ahead in the queue and two for itself. */
  function TurnsToGo(s: State, own: Timer): nat {
    if InHand(s, own) then 1 else TurnsBefore(s, own) + 2 * (Ahead(s.queue, own) + 1)
  }

  lemma QueuedOrInHand(s: State, m: Message)
    requires Inv(s) && Overdue(s, m)
    ensures InHand(s, OwnTimer(s, m)) || OwnTimer(s, m) in s.queue
  {
    assert ArmingNow(s.rpc, s.cache[m.key]) || OwnTimerLive(s, s.cache[m.key]);
  }

  lemma DeletionKeepsAhead(q: seq<Timer>, own: Timer, id: string)
    requires own in q && own.id != id
    ensures own in WithoutFirst(q, HasId(id)) && Ahead(WithoutFirst(q, HasId(id)), own) <= Ahead(q, own)
  {
    var i := FirstMatch(q, HasId(id));
    if i < |q| {
      assert HasId(id)(q[i]);
      AheadRemoval(q, own, i);
    }
  }

  /** While the receiver deletes no timer of this id, the timer does not move back. */
  lemma ReceiverKeepsAhead(s: State, own: Timer)
    requires own in s.queue && (s.rpc.Reported? ==> s.rpc.first.key != own.id)
    ensures own in ReceiverStep(s).queue && Ahead(ReceiverStep(s).queue, own) <= Ahead(s.queue, own)
  {
    if s.rpc.Reported? {
      DeletionKeepsAhead(s.queue, own, s.rpc.first.key);
    } else if s.rpc.Stamped? {
      AheadPush(s.queue, own, Timer(s.rpc.readAt + s.duration, s.rpc.msg.key));
    } else {
      assert ReceiverStep(s).queue == s.queue;
    }
  }

  /** No step of the others makes the pool thread need more turns. */
  lemma OthersNeverDelay(s: State, a: Action, own: Timer)
    requires !a.TimerThread? && (InHand(s, own) || own in s.queue)
    requires s.rpc.Reported? ==> s.rpc.first.key != own.id
    requires s.tpc.Sweeping? || s.tpc.InFlight? ==> s.tpc.snapshot <= s.now
    ensures TurnsToGo(Step(s, a), own) <= TurnsToGo(s, own)
  {
    OthersKeepPlace(s, a);
    if !InHand(s, own) {
      if a.Receiver? {
        ReceiverKeepsAhead(s, own);
      }
      if s.tpc.Sweeping? || s.tpc.InFlight? {
        OthersNeverAddWork(s, a, s.tpc.snapshot);
      }
    }
  }

  /** The queue is sorted, so the first timer that a snapshot past this deadline finds expired stands at the front. */
  lemma FrontExpires(q: seq<Timer>, own: Timer, snapshot: int)
    requires Sorted(q) && own in q && own.deadline < snapshot
    ensures q != [] && FirstMatch(q, ExpiredBy(snapshot)) == 0 && WithoutFirst(q, ExpiredBy(snapshot)) == q[1..]
  {
    AheadExists(q, own);
    assert q[0].deadline <= own.deadline;
    assert ExpiredBy(snapshot)(q[0]);
    assert q[..0] + q[1..] == q[1..];
  }

  lemma BehindFront(q: seq<Timer>, own: Timer)
    requires own in q && q[0] != own
    ensures own in q[1..] && Ahead(q[1..], own) + 1 <= Ahead(q, own)
  {
    AheadExists(q, own);
    AheadRemoval(q, own, 0);
    assert q[..0] + q[1..] == q[1..];
  }

  /** A sweep past the deadline takes the timer itself or one that stands before it. */
  lemma SweepingNearer(s: State, own: Timer)
    requires Sorted(s.queue) && own in s.queue && s.tpc.Sweeping? && own.deadline < s.tpc.snapshot
    ensures TurnsToGo(TimerStep(s), own) < TurnsToGo(s, own)
  {
    var s', front := TimerStep(s), s.queue[0];
    FrontTaken(s, own);
    assert TurnsToGo(s, own) == 2 * (Ahead(s.queue, own) + 1);
    if front == own {
      assert TurnsToGo(s', own) == 1;
    } else {
      BehindFront(s.queue, own);
      assert TurnsToGo(s', own) == 1 + 2 * (Ahead(s'.queue, own) + 1);
    }
  }

  lemma FrontTaken(s: State, own: Timer)
    requires Sorted(s.queue) && own in s.queue && s.tpc.Sweeping? && own.deadline < s.tpc.snapshot
    ensures TimerStep(s).tpc == InFlight(s.tpc.snapshot, s.queue[0]) && TimerStep(s).queue == s.queue[1..]
  {
    FrontExpires(s.queue, own, s.tpc.snapshot);
  }

  /** A sweep with an earlier snapshot leaves the timer alone. */
  lemma EarlierSweepKeepsAhead(s: State, own: Timer)
    requires s.tpc.Sweeping? && own in s.queue && own.deadline >= s.tpc.snapshot
    ensures Ahead(TimerStep(s).queue, own) <= Ahead(s.queue, own) && !InHand(TimerStep(s), own)
  {
    var i := FirstMatch(s.queue, ExpiredBy(s.tpc.snapshot));
    if i < |s.queue| {
      assert ExpiredBy(s.tpc.snapshot)(s.queue[i]);
      AheadRemoval(s.queue, own, i);
    }
  }

  lemma EarlierSweepNearer(s: State, own: Timer)
    requires own in s.queue && s.tpc.Sweeping? && own.deadline >= s.tpc.snapshot && s.tpc.snapshot <= s.now
    ensures TurnsToGo(TimerStep(s), own) < TurnsToGo(s, own)
  {
    PoolStepsAreProgress(s, s.tpc.snapshot);
    EarlierSweepKeepsAhead(s, own);
  }

  lemma OtherFires(s: State, own: Timer)
    requires s.tpc.InFlight? && s.tpc.timer != own && s.tpc.snapshot <= s.now
    ensures TurnsToGo(TimerStep(s), own) < TurnsToGo(s, own)
  {
    PoolStepsAreProgress(s, s.tpc.snapshot);
    assert TimerStep(s).queue == s.queue && TimerStep(s).tpc == Sweeping(s.tpc.snapshot);
  }

  lemma PlaceNearer(s: State, own: Timer)
    requires TurnsAway(s.tpc) > 0 && TurnsAway(TimerStep(s).tpc) + 1 == TurnsAway(s.tpc)
    requires s.tpc.Top? ==> own.deadline < s.now
    ensures TurnsToGo(TimerStep(s), own) < TurnsToGo(s, own)
  {
    assert TimerStep(s).queue == s.queue;
  }

  lemma OutsideNearer(s: State, m: Message)
    requires Inv(s) && Overdue(s, m) && TurnsAway(s.tpc) > 0
    ensures TurnsToGo(TimerStep(s), OwnTimer(s, m)) < TurnsToGo(s, OwnTimer(s, m))
  {
    OneTurnNearer(s, m);
    PlaceNearer(s, OwnTimer(s, m));
  }

  lemma OwnFires(s: State, m: Message)
    requires Overdue(s, m) && InHand(s, OwnTimer(s, m))
    ensures !Overdue(TimerStep(s), m)
  {
  }

  /** Every turn of the pool thread brings the message nearer to its end. */
  lemma PoolTurnNearer(s: State, m: Message)
    requires Inv(s) && Overdue(s, m) && Overdue(TimerStep(s), m)
    ensures TurnsToGo(TimerStep(s), OwnTimer(s, m)) < TurnsToGo(s, OwnTimer(s, m))
  {
    var own := OwnTimer(s, m);
    QueuedOrInHand(s, m);
    if TurnsAway(s.tpc) > 0 {
      OutsideNearer(s, m);
    } else if InHand(s, own) {
      OwnFires(s, m);
    } else if s.tpc.InFlight? {
      OtherFires(s, own);
    } else if own.deadline < s.tpc.snapshot {
      SweepingNearer(s, own);
    } else {
      EarlierSweepNearer(s, own);
    }
  }

  lemma OtherTurnNoLater(s: State, a: Action, m: Message)
    requires Inv(s) && Overdue(s, m) && !a.TimerThread?
    ensures TurnsToGo(Step(s, a), OwnTimer(s, m)) <= TurnsToGo(s, OwnTimer(s, m))
  {
    QueuedOrInHand(s, m);
    OthersNeverDelay(s, a, OwnTimer(s, m));
  }

  /** One step of anybody. */
  lemma GoneOrNearer(s: State, a: Action, m: Message)
    requires Inv(s) && Overdue(s, m)
    ensures var s' := Step(s, a);
            || IsGone(s', m)
            || (Overdue(s', m) && OwnTimer(s', m) == OwnTimer(s, m)
                && TurnsToGo(s', OwnTimer(s, m)) + (if a.TimerThread? then 1 else 0) <= TurnsToGo(s, OwnTimer(s, m)))
  {
    OverdueOrGone(s, a, m);
    if Overdue(Step(s, a), m) {
      if a.TimerThread? {
        PoolTurnNearer(s, m);
      } else {
        OtherTurnNoLater(s, a, m);
      }
    }
  }

  lemma {:induction false} GoneInTime(s: State, schedule: seq<Action>, m: Message)
    requires Inv(s) && Overdue(s, m) && PoolSteps(schedule) >= TurnsToGo(s, OwnTimer(s, m))
    ensures IsGone(Run(s, schedule), m)
    decreases |schedule|
  {
    var s' := Step(s, schedule[0]);
    StepKeeps(s, schedule[0]);
    GoneOrNearer(s, schedule[0], m);
    if IsGone(s', m) {
      RunKeepsGone(s', schedule[1..], m);
    } else {
      GoneInTime(s', schedule[1..], m);
    }
  }

  /** In every interleaving, once the clock has passed the deadline of a waiting message's timer, the message is out of
      the cache for good after a fixed number of turns of the pool thread, which depends on nothing but the pool
      thread's place and, outside an earlier sweep, the timers ahead in the queue. */
  lemma OverdueMessageIsGoneInTime(start: int, duration: nat, before: seq<Action>, schedule: seq<Action>, m: Message)
    requires var s := Run(Init(start, duration), before);
             Overdue(s, m) && PoolSteps(schedule) >= TurnsToGo(s, OwnTimer(s, m))
    ensures var s := Run(Run(Init(start, duration), before), schedule);
            m.key in s.cache ==> s.cache[m.key] != m
  {
    EveryRun(start, duration, before);
    GoneInTime(Run(Init(start, duration), before), schedule, m);
  }
}
