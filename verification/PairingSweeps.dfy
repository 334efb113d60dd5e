/** One sweep of the pool thread while the receiver goes on: it ends in every interleaving, and what it fires is
    counted exactly. The receiver reads the clock before it queues a timer, so a timer that is already overdue can
    enter the queue of a sweep that is under way. */
module PairingSweeps {
  import opened BlockingDequeues
  import opened TimerPools
  import opened PairingMachine
  import opened PairingInvariants
  import opened CoarsePairing

  /** The pool thread is in the sweep with this snapshot. */
  predicate InSweep(s: State, snapshot: int) {
    (s.tpc.Sweeping? || s.tpc.InFlight?) && s.tpc.snapshot == snapshot
  }

  // ---- What one step does to the timers below the snapshot ----

  /** The receiver is about to queue a timer that is overdue at the snapshot. */
  predicate OverdueStamped(s: State, snapshot: int) {
    s.rpc.Stamped? && s.rpc.readAt + s.duration < snapshot
  }

  /** The timer the step queues although it is overdue at the snapshot. */
  function LatePush(s: State, a: Action, snapshot: int): seq<Timer> {
    if a.Receiver? && OverdueStamped(s, snapshot) then [Timer(s.rpc.readAt + s.duration, s.rpc.msg.key)] else []
  }

  /** The timer the step deletes although it is overdue at the snapshot. */
  function DueDeleted(s: State, a: Action, snapshot: int): seq<Timer> {
    if a.Receiver? && s.rpc.Reported? then
      var i := FirstMatch(s.queue, HasId(s.rpc.first.key));
      if i < |s.queue| && s.queue[i].deadline < snapshot then [s.queue[i]] else []
    else []
  }

  /** The expired timer the step takes off the queue. */
  function Taken(s: State, a: Action): seq<Timer> {
    if a.TimerThread? && s.tpc.Sweeping? then
      var i := FirstMatch(s.queue, ExpiredBy(s.tpc.snapshot));
      if i < |s.queue| then [s.queue[i]] else []
    else []
  }

  function Held(s: State): nat {
    if s.tpc.InFlight? then 1 else 0
  }

  lemma CountBelowPush(q: seq<Timer>, t: Timer, snapshot: int)
    ensures CountBelow(q + [t], snapshot) == CountBelow(q, snapshot) + (if t.deadline < snapshot then 1 else 0)
  {
    CountBelowConcat(q, [t], snapshot);
    assert [t][1..] == [];
  }

  lemma ReceiverCounts(s: State, snapshot: int)
    ensures CountBelow(ReceiverStep(s).queue, snapshot) + |DueDeleted(s, Receiver, snapshot)|
            == CountBelow(s.queue, snapshot) + |LatePush(s, Receiver, snapshot)|
  {
    if s.rpc.Reported? {
      CountBelowRemoval(s.queue, HasId(s.rpc.first.key), snapshot);
    } else if s.rpc.Stamped? {
      CountBelowPush(s.queue, Timer(s.rpc.readAt + s.duration, s.rpc.msg.key), snapshot);
    } else {
      assert ReceiverStep(s).queue == s.queue;
    }
  }

  lemma TimerCounts(s: State, snapshot: int)
    requires InSweep(s, snapshot)
    ensures CountBelow(TimerStep(s).queue, snapshot) + |Taken(s, TimerThread)| == CountBelow(s.queue, snapshot)
    ensures TimerStep(s).expired + Held(TimerStep(s)) == s.expired + Held(s) + |Taken(s, TimerThread)|
  {
    if s.tpc.Sweeping? {
      CountBelowRemoval(s.queue, ExpiredBy(snapshot), snapshot);
      assert FirstMatch(s.queue, ExpiredBy(snapshot)) < |s.queue| ==>
        ExpiredBy(snapshot)(s.queue[FirstMatch(s.queue, ExpiredBy(snapshot))]);
    }
  }

  /** How the number of overdue timers in the queue changes, and the number of firings. */
  lemma StepCounts(s: State, a: Action, snapshot: int)
    requires InSweep(s, snapshot)
    ensures var s' := Step(s, a);
            && CountBelow(s'.queue, snapshot) + |Taken(s, a)| + |DueDeleted(s, a, snapshot)|
               == CountBelow(s.queue, snapshot) + |LatePush(s, a, snapshot)|
            && s'.expired + Held(s') == s.expired + Held(s) + |Taken(s, a)|
  {
    match a
    case Receiver => ReceiverCounts(s, snapshot);
    case TimerThread => TimerCounts(s, snapshot);
    case _ =>
  }

  // ---- The same for one particular timer ----

  /** How often the timer occurs. */
  function Times(ts: seq<Timer>, t: Timer): nat {
    if ts == [] then 0 else (if ts[0] == t then 1 else 0) + Times(ts[1..], t)
  }

  lemma {:induction false} TimesConcat(a: seq<Timer>, b: seq<Timer>, t: Timer)
    ensures Times(a + b, t) == Times(a, t) + Times(b, t)
  {
    if a == [] {
      assert a + b == b;
    } else {
      assert (a + b)[0] == a[0] && (a + b)[1..] == a[1..] + b;
      TimesConcat(a[1..], b, t);
    }
  }

  lemma TimesOne(u: Timer, t: Timer)
    ensures Times([u], t) == if u == t then 1 else 0
  {
    assert [u][1..] == [];
  }

  lemma {:induction false} TimesIsMultiplicity(ts: seq<Timer>, t: Timer)
    ensures Times(ts, t) == multiset(ts)[t]
  {
    if ts != [] {
      TimesIsMultiplicity(ts[1..], t);
      assert ts == [ts[0]] + ts[1..];
    }
  }

  /** How often it occurs among the overdue timers. */
  function TimesDue(q: seq<Timer>, snapshot: int, t: Timer): nat {
    if t.deadline < snapshot then Times(q, t) else 0
  }

  lemma {:induction false} TimesSelected(q: seq<Timer>, snapshot: int, t: Timer)
    ensures Times(Selected(q, ExpiredBy(snapshot)), t) == TimesDue(q, snapshot, t)
  {
    if q != [] {
      var head := if ExpiredBy(snapshot)(q[0]) then [q[0]] else [];
      TimesSelected(q[1..], snapshot, t);
      TimesConcat(head, Selected(q[1..], ExpiredBy(snapshot)), t);
      TimesOne(q[0], t);
    }
  }

  lemma TimesRemoval(q: seq<Timer>, i: nat, t: Timer)
    requires i < |q|
    ensures Times(q, t) == Times(q[..i] + q[i + 1..], t) + if q[i] == t then 1 else 0
  {
    assert q == q[..i] + ([q[i]] + q[i + 1..]);
    TimesConcat(q[..i], [q[i]] + q[i + 1..], t);
    TimesConcat([q[i]], q[i + 1..], t);
    TimesConcat(q[..i], q[i + 1..], t);
    TimesOne(q[i], t);
  }

  lemma ReceiverLedger(s: State, snapshot: int, t: Timer)
    ensures TimesDue(ReceiverStep(s).queue, snapshot, t) + Times(DueDeleted(s, Receiver, snapshot), t)
            == TimesDue(s.queue, snapshot, t) + Times(LatePush(s, Receiver, snapshot), t)
  {
    if s.rpc.Reported? {
      var i := FirstMatch(s.queue, HasId(s.rpc.first.key));
      if i < |s.queue| {
        TimesRemoval(s.queue, i, t);
        TimesOne(s.queue[i], t);
      }
    } else if s.rpc.Stamped? {
      var own := Timer(s.rpc.readAt + s.duration, s.rpc.msg.key);
      TimesConcat(s.queue, [own], t);
      TimesOne(own, t);
    } else {
      assert ReceiverStep(s).queue == s.queue;
    }
  }

  lemma TimerLedger(s: State, snapshot: int, t: Timer)
    requires InSweep(s, snapshot)
    ensures TimesDue(TimerStep(s).queue, snapshot, t) + Times(Taken(s, TimerThread), t)
            == TimesDue(s.queue, snapshot, t)
  {
    if s.tpc.Sweeping? {
      var i := FirstMatch(s.queue, ExpiredBy(snapshot));
      if i < |s.queue| {
        TimesRemoval(s.queue, i, t);
        TimesOne(s.queue[i], t);
        assert ExpiredBy(snapshot)(s.queue[i]);
      }
    }
  }

  lemma StepLedger(s: State, a: Action, snapshot: int, t: Timer)
    requires InSweep(s, snapshot)
    ensures TimesDue(Step(s, a).queue, snapshot, t) + Times(Taken(s, a), t) + Times(DueDeleted(s, a, snapshot), t)
            == TimesDue(s.queue, snapshot, t) + Times(LatePush(s, a, snapshot), t)
  {
    match a
    case Receiver => ReceiverLedger(s, snapshot, t);
    case TimerThread => TimerLedger(s, snapshot, t);
    case _ =>
  }

  // ---- A whole sweep ----

  /** The schedule runs from inside the sweep exactly to its end: the look that finds nothing more. */
  predicate SweepsThrough(s: State, schedule: seq<Action>, snapshot: int)
    decreases |schedule|
  {
    if schedule == [] then s.tpc.AtFront? && s.swept == snapshot
    else InSweep(s, snapshot) && SweepsThrough(Step(s, schedule[0]), schedule[1..], snapshot)
  }

  /** The timers the pool thread takes during the schedule, in that order; each is fired before the next is taken. */
  function AllTaken(s: State, schedule: seq<Action>): seq<Timer>
    decreases |schedule|
  {
    if schedule == [] then [] else Taken(s, schedule[0]) + AllTaken(Step(s, schedule[0]), schedule[1..])
  }

  function LatePushes(s: State, schedule: seq<Action>, snapshot: int): seq<Timer>
    decreases |schedule|
  {
    if schedule == [] then []
    else LatePush(s, schedule[0], snapshot) + LatePushes(Step(s, schedule[0]), schedule[1..], snapshot)
  }

  function DueDeletions(s: State, schedule: seq<Action>, snapshot: int): seq<Timer>
    decreases |schedule|
  {
    if schedule == [] then []
    else DueDeleted(s, schedule[0], snapshot) + DueDeletions(Step(s, schedule[0]), schedule[1..], snapshot)
  }

  /** The last look leaves nothing overdue behind. */
  lemma LastLookFindsNothing(s: State, a: Action, snapshot: int)
    requires InSweep(s, snapshot) && Step(s, a).tpc.AtFront?
    ensures NoneBefore(Step(s, a).queue, snapshot)
  {
    assert a.TimerThread? && s.tpc.Sweeping?;
    assert FirstMatch(s.queue, ExpiredBy(snapshot)) == |s.queue|;
    assert TimerStep(s).queue == s.queue;
    NothingExpired(s.queue, snapshot);
  }

  lemma {:induction false} NothingDue(q: seq<Timer>, snapshot: int, t: Timer)
    requires NoneBefore(q, snapshot)
    ensures CountBelow(q, snapshot) == 0 && TimesDue(q, snapshot, t) == 0
  {
    if q != [] {
      assert q[0] in q && forall u <- q[1..] :: u in q;
      NothingDue(q[1..], snapshot, t);
    }
  }

  lemma {:induction false} SweepLeavesNothing(s: State, schedule: seq<Action>, snapshot: int)
    requires SweepsThrough(s, schedule, snapshot) && schedule != []
    ensures NoneBefore(Run(s, schedule).queue, snapshot) && Run(s, schedule).tpc.AtFront?
    decreases |schedule|
  {
    if schedule[1..] == [] {
      LastLookFindsNothing(s, schedule[0], snapshot);
    } else {
      SweepLeavesNothing(Step(s, schedule[0]), schedule[1..], snapshot);
    }
  }

  /** Every firing is of a timer taken, or of the one that was in the pool thread's hands. */
  lemma {:induction false} SweepFirings(s: State, schedule: seq<Action>, snapshot: int)
    requires SweepsThrough(s, schedule, snapshot)
    ensures Run(s, schedule).expired == s.expired + Held(s) + |AllTaken(s, schedule)|
    decreases |schedule|
  {
    if schedule != [] {
      StepCounts(s, schedule[0], snapshot);
      SweepFirings(Step(s, schedule[0]), schedule[1..], snapshot);
    }
  }

  /** The books of a whole sweep, for one particular timer. */
  lemma {:induction false} SweepLedger(s: State, schedule: seq<Action>, snapshot: int, t: Timer)
    requires SweepsThrough(s, schedule, snapshot)
    ensures TimesDue(Run(s, schedule).queue, snapshot, t) + Times(AllTaken(s, schedule), t)
            + Times(DueDeletions(s, schedule, snapshot), t)
            == TimesDue(s.queue, snapshot, t) + Times(LatePushes(s, schedule, snapshot), t)
    decreases |schedule|
  {
    if schedule != [] {
      var a, s', more := schedule[0], Step(s, schedule[0]), schedule[1..];
      StepLedger(s, a, snapshot, t);
      SweepLedger(s', more, snapshot, t);
      TimesConcat(Taken(s, a), AllTaken(s', more), t);
      TimesConcat(DueDeleted(s, a, snapshot), DueDeletions(s', more, snapshot), t);
      TimesConcat(LatePush(s, a, snapshot), LatePushes(s', more, snapshot), t);
    }
  }

  /** The same for all timers. */
  lemma SweepBooks(s: State, schedule: seq<Action>, snapshot: int)
    requires SweepsThrough(s, schedule, snapshot) && schedule != []
    ensures multiset(AllTaken(s, schedule)) + multiset(DueDeletions(s, schedule, snapshot))
            == multiset(Selected(s.queue, ExpiredBy(snapshot))) + multiset(LatePushes(s, schedule, snapshot))
  {
    SweepLeavesNothing(s, schedule, snapshot);
    var taken, deleted := AllTaken(s, schedule), DueDeletions(s, schedule, snapshot);
    var found, late := Selected(s.queue, ExpiredBy(snapshot)), LatePushes(s, schedule, snapshot);
    forall t: Timer
      ensures Times(taken, t) + Times(deleted, t) == Times(found, t) + Times(late, t)
    {
      SweepLedger(s, schedule, snapshot, t);
      NothingDue(Run(s, schedule).queue, snapshot, t);
      TimesSelected(s.queue, snapshot, t);
    }
    SameTimes(taken, deleted, found, late);
  }

  lemma SameTimes(a: seq<Timer>, b: seq<Timer>, c: seq<Timer>, d: seq<Timer>)
    requires forall t: Timer :: Times(a, t) + Times(b, t) == Times(c, t) + Times(d, t)
    ensures multiset(a) + multiset(b) == multiset(c) + multiset(d)
  {
    forall t: Timer
      ensures (multiset(a) + multiset(b))[t] == (multiset(c) + multiset(d))[t]
    {
      assert Times(a, t) + Times(b, t) == Times(c, t) + Times(d, t);
      TimesIsMultiplicity(a, t);
      TimesIsMultiplicity(b, t);
      TimesIsMultiplicity(c, t);
      TimesIsMultiplicity(d, t);
    }
  }

  /** Once the clock stands at or past the snapshot, a timer stamped from then on is not overdue at it. */
  lemma OverdueOnce(s: State, a: Action, snapshot: int)
    requires snapshot <= s.now
    ensures snapshot <= Step(s, a).now
    ensures |LatePush(s, a, snapshot)| + (if OverdueStamped(Step(s, a), snapshot) then 1 else 0)
            == (if OverdueStamped(s, snapshot) then 1 else 0)
  {
    match a
    case TimerThread => assert TimerStep(s).rpc == s.rpc;
    case Receiver => assert ReceiverStep(s).rpc.Stamped? ==> s.rpc.Added? && ReceiverStep(s).rpc.readAt == s.now;
    case _ =>
  }

  lemma {:induction false} LatePushesAtMostOnce(s: State, schedule: seq<Action>, snapshot: int)
    requires snapshot <= s.now
    ensures |LatePushes(s, schedule, snapshot)| <= if OverdueStamped(s, snapshot) then 1 else 0
    decreases |schedule|
  {
    if schedule != [] {
      OverdueOnce(s, schedule[0], snapshot);
      LatePushesAtMostOnce(Step(s, schedule[0]), schedule[1..], snapshot);
    }
  }

  // ---- The order of the firings ----

  /** No timer that is still to be taken, or still to be pushed, is due before `low`. */
  ghost predicate NoneToComeBefore(s: State, low: int) {
    && NoneBefore(s.queue, low)
    && low <= s.now + s.duration
    && (s.rpc.Stamped? ==> low <= s.rpc.readAt + s.duration)
  }

  lemma ToComeReceiver(s: State, low: int)
    requires NoneToComeBefore(s, low)
    ensures NoneToComeBefore(ReceiverStep(s), low)
  {
    if s.rpc.Reported? {
      WithoutFirstElements(s.queue, HasId(s.rpc.first.key));
    }
  }

  lemma ToComeTimer(s: State, low: int)
    requires NoneToComeBefore(s, low)
    ensures NoneToComeBefore(TimerStep(s), low)
  {
    if s.tpc.Sweeping? {
      WithoutFirstElements(s.queue, ExpiredBy(s.tpc.snapshot));
    }
  }

  lemma ToComeKept(s: State, a: Action, low: int)
    requires NoneToComeBefore(s, low)
    ensures NoneToComeBefore(Step(s, a), low)
  {
    match a
    case Receiver => ToComeReceiver(s, low);
    case TimerThread => ToComeTimer(s, low);
    case _ =>
  }

  /** The queue is sorted, so the first expired timer stands at its front and is due before all to come. */
  lemma TakenIsLeast(s: State, a: Action, low: int)
    requires QueueInTime(s) && NoneToComeBefore(s, low) && Taken(s, a) != []
    ensures low <= Taken(s, a)[0].deadline && NoneToComeBefore(s, Taken(s, a)[0].deadline)
  {
    var i := FirstMatch(s.queue, ExpiredBy(s.tpc.snapshot));
    var t := s.queue[i];
    assert ExpiredBy(s.tpc.snapshot)(t);
    assert t in s.queue;
    forall u <- s.queue
      ensures u.deadline >= t.deadline
    {
      var j :| 0 <= j < |s.queue| && s.queue[j] == u;
    }
  }

  lemma {:induction false} TakenInOrder(s: State, schedule: seq<Action>, low: int)
    requires Inv(s) && NoneToComeBefore(s, low)
    ensures Sorted(AllTaken(s, schedule)) && NoneBefore(AllTaken(s, schedule), low)
    decreases |schedule|
  {
    if schedule != [] {
      var a, s' := schedule[0], Step(s, schedule[0]);
      StepKeeps(s, a);
      if Taken(s, a) == [] {
        ToComeKept(s, a, low);
        TakenInOrder(s', schedule[1..], low);
        assert AllTaken(s, schedule) == AllTaken(s', schedule[1..]);
      } else {
        var t := Taken(s, a)[0];
        TakenIsLeast(s, a, low);
        ToComeKept(s, a, t.deadline);
        TakenInOrder(s', schedule[1..], t.deadline);
        LeastFirstSorted(t, AllTaken(s', schedule[1..]));
        assert AllTaken(s, schedule) == [t] + AllTaken(s', schedule[1..]);
        BoundWeakens([t] + AllTaken(s', schedule[1..]), t.deadline, low);
      }
    }
  }

  lemma LeastFirstSorted(t: Timer, ts: seq<Timer>)
    requires Sorted(ts) && NoneBefore(ts, t.deadline)
    ensures Sorted([t] + ts) && NoneBefore([t] + ts, t.deadline)
  {
    assert forall i :: 0 <= i < |ts| ==> ts[i] in ts;
  }

  lemma BoundWeakens(ts: seq<Timer>, high: int, low: int)
    requires NoneBefore(ts, high) && low <= high
    ensures NoneBefore(ts, low)
  {
  }

  /** Some time before all queued timers. */
  lemma SomeLowBound(s: State) returns (low: int)
    requires QueueInTime(s)
    ensures NoneToComeBefore(s, low)
  {
    low := s.now + s.duration;
    if s.rpc.Stamped? && s.rpc.readAt + s.duration < low {
      low := s.rpc.readAt + s.duration;
    }
    if s.queue != [] && s.queue[0].deadline < low {
      low := s.queue[0].deadline;
    }
  }

  /** In every interleaving a sweep fires, in the order of their deadlines, exactly the timers that were overdue in the
      queue and the one that was pushed late, less those the receiver deleted first. So it fires more than it found
      exactly when the receiver had read the clock too early, pushed during the sweep, and deleted no overdue timer
      during it. */
  lemma SweepFiresExactly(start: int, duration: nat, before: seq<Action>, sweep: seq<Action>)
    requires Run(Init(start, duration), before).tpc.Sweeping?
    requires var s := Run(Init(start, duration), before); sweep != [] && SweepsThrough(s, sweep, s.tpc.snapshot)
    ensures var s := Run(Init(start, duration), before);
            var fired, found := AllTaken(s, sweep), Selected(s.queue, ExpiredBy(s.tpc.snapshot));
            var late, deleted := LatePushes(s, sweep, s.tpc.snapshot), DueDeletions(s, sweep, s.tpc.snapshot);
            && multiset(fired) + multiset(deleted) == multiset(found) + multiset(late)
            && Sorted(fired)
            && Run(s, sweep).expired == s.expired + |fired|
            && |late| <= (if OverdueStamped(s, s.tpc.snapshot) then 1 else 0)
            && (|fired| > |found| <==> |late| == 1 && deleted == [])
            && NoneBefore(Run(s, sweep).queue, s.tpc.snapshot)
  {
    var s := Run(Init(start, duration), before);
    EveryRun(start, duration, before);
    var snapshot := s.tpc.snapshot;
    SweepBooks(s, sweep, snapshot);
    SweepFirings(s, sweep, snapshot);
    SweepLeavesNothing(s, sweep, snapshot);
    LatePushesAtMostOnce(s, sweep, snapshot);
    var low := SomeLowBound(s);
    TakenInOrder(s, sweep, low);
    BooksInNumbers(AllTaken(s, sweep), DueDeletions(s, sweep, snapshot), Selected(s.queue, ExpiredBy(snapshot)),
                   LatePushes(s, sweep, snapshot));
  }

  lemma BooksInNumbers(a: seq<Timer>, b: seq<Timer>, c: seq<Timer>, d: seq<Timer>)
    requires multiset(a) + multiset(b) == multiset(c) + multiset(d)
    ensures |a| + |b| == |c| + |d|
  {
    assert |multiset(a) + multiset(b)| == |a| + |b|;
    assert |multiset(c) + multiset(d)| == |c| + |d|;
  }

  // ---- The sweep ends ----

  /** What the sweep can still have to fire: the overdue timers in the queue, and one the receiver may be about to
      push. */
  function Work(s: State, snapshot: int): nat {
    CountBelow(s.queue, snapshot) + if OverdueStamped(s, snapshot) then 1 else 0
  }

  /** No step of the receiver, no arrival and no tick of the clock gives the sweep more to do. */
  lemma OthersNeverAddWork(s: State, a: Action, snapshot: int)
    requires InSweep(s, snapshot) && snapshot <= s.now && !a.TimerThread?
    ensures Work(Step(s, a), snapshot) <= Work(s, snapshot) && Step(s, a).tpc == s.tpc
  {
    StepCounts(s, a, snapshot);
    OverdueOnce(s, a, snapshot);
  }

  function PoolSteps(schedule: seq<Action>): nat
    decreases |schedule|
  {
    if schedule == [] then 0 else (if schedule[0].TimerThread? then 1 else 0) + PoolSteps(schedule[1..])
  }

  /** How many turns of the pool thread are enough: two for each firing, one for a timer already in its hands, and the
      last look. */
  function Enough(s: State, snapshot: int): nat {
    2 * Work(s, snapshot) + Held(s) + 1
  }

  lemma PoolStepsAreProgress(s: State, snapshot: int)
    requires InSweep(s, snapshot) && snapshot <= s.now
    ensures var s' := TimerStep(s);
            || (s'.tpc.AtFront? && s'.swept == snapshot)
            || (InSweep(s', snapshot) && Enough(s', snapshot) + 1 == Enough(s, snapshot))
  {
    StepCounts(s, TimerThread, snapshot);
  }

  ghost predicate EndsWithin(s: State, schedule: seq<Action>, snapshot: int) {
    exists n: nat :: n <= |schedule| && n > 0 && SweepsThrough(s, schedule[..n], snapshot)
  }

  lemma EndsOneLater(s: State, schedule: seq<Action>, snapshot: int)
    requires schedule != [] && InSweep(s, snapshot)
    requires EndsWithin(Step(s, schedule[0]), schedule[1..], snapshot)
    ensures EndsWithin(s, schedule, snapshot)
  {
    var n: nat :| n <= |schedule[1..]| && n > 0 && SweepsThrough(Step(s, schedule[0]), schedule[1..][..n], snapshot);
    assert schedule[..n + 1][1..] == schedule[1..][..n];
    assert SweepsThrough(s, schedule[..n + 1], snapshot);
  }

  lemma {:induction false} SweepEndsFrom(s: State, schedule: seq<Action>, snapshot: int)
    requires InSweep(s, snapshot) && snapshot <= s.now && PoolSteps(schedule) >= Enough(s, snapshot)
    ensures EndsWithin(s, schedule, snapshot)
    decreases |schedule|
  {
    var a, s' := schedule[0], Step(s, schedule[0]);
    if a.TimerThread? {
      PoolStepsAreProgress(s, snapshot);
    } else {
      OthersNeverAddWork(s, a, snapshot);
    }
    if InSweep(s', snapshot) {
      SweepEndsFrom(s', schedule[1..], snapshot);
      EndsOneLater(s, schedule, snapshot);
    } else {
      assert schedule[..1][1..] == [];
      assert SweepsThrough(s, schedule[..1], snapshot);
    }
  }

  /** The sweep ends in every interleaving: from any state inside it, and whatever else is scheduled, it is over by the
      time the pool thread has had a bounded number of turns. */
  lemma EverySweepEnds(start: int, duration: nat, before: seq<Action>, schedule: seq<Action>)
    requires var s := Run(Init(start, duration), before);
             (s.tpc.Sweeping? || s.tpc.InFlight?) && PoolSteps(schedule) >= Enough(s, s.tpc.snapshot)
    ensures var s := Run(Init(start, duration), before); EndsWithin(s, schedule, s.tpc.snapshot)
  {
    var s := Run(Init(start, duration), before);
    EveryRun(start, duration, before);
    SweepEndsFrom(s, schedule, s.tpc.snapshot);
  }

  // ---- A sweep that fires more than it found ----

  /** The clock is read, the sweep begins with an empty queue, and the overdue timer arrives. */
  function ToEmptySweep(duration: nat, key: string): seq<Action> {
    [Arrive(key), Receiver, Receiver, Receiver] + [Tick(duration + 1), TimerThread]
  }

  lemma LateTimerIsFired(start: int, duration: nat, key: string)
    ensures var s := Run(Init(start, duration), ToEmptySweep(duration, key));
            var sweep := [Receiver, TimerThread, TimerThread, TimerThread];
            && s.tpc.Sweeping? && s.queue == []
            && SweepsThrough(s, sweep, s.tpc.snapshot)
            && Run(s, sweep).expired == s.expired + 1
  {
    var s0, m, late := Init(start, duration), Message(0, key), start + duration + 1;
    var half := [Arrive(key), Receiver, Receiver, Receiver];
    RunFour(s0, Arrive(key), Receiver, Receiver, Receiver);
    var s1 := Step(s0, Arrive(key));
    assert ReceiverStep(s1) == s1.(rpc := Missing(m));
    RunTwo(Run(s0, half), Tick(duration + 1), TimerThread);
    RunConcat(s0, half, [Tick(duration + 1), TimerThread]);
    var s := Run(s0, ToEmptySweep(duration, key));
    assert s.rpc == Stamped(m, start) && s.cache == map[key := m] && s.queue == [] && s.tpc == Sweeping(late);
    OverdueTimerSweep(s, m, start);
  }

  lemma OverdueTimerSweep(s: State, m: Message, readAt: int)
    requires s.rpc == Stamped(m, readAt) && s.queue == [] && s.tpc.Sweeping? && readAt + s.duration < s.tpc.snapshot
    ensures var sweep := [Receiver, TimerThread, TimerThread, TimerThread];
            SweepsThrough(s, sweep, s.tpc.snapshot) && Run(s, sweep).expired == s.expired + 1
  {
    var snapshot := s.tpc.snapshot;
    var s1 := ReceiverStep(s);
    assert s1.queue == [Timer(readAt + s.duration, m.key)] && s1.tpc == s.tpc && s1.expired == s.expired;
    OnlyTimerTaken(s1, s1.queue[0], snapshot);
    var s2 := TimerStep(s1);
    FiredAndOver(s2, s1.queue[0], snapshot);
    RunFour(s, Receiver, TimerThread, TimerThread, TimerThread);
    ThroughFour(s, s1, s2, TimerStep(s2), Receiver, TimerThread, TimerThread, TimerThread, snapshot);
  }

  /** The timer in hand fires, and the next look finds nothing. */
  lemma FiredAndOver(s: State, t: Timer, snapshot: int)
    requires s.tpc == InFlight(snapshot, t) && s.queue == []
    ensures TimerStep(s).tpc == Sweeping(snapshot) && TimerStep(s).expired == s.expired + 1
    ensures var s' := TimerStep(TimerStep(s));
            s'.tpc.AtFront? && s'.swept == snapshot && s'.expired == s.expired + 1
  {
    assert TimerStep(s).queue == [];
  }

  lemma ThroughOne(s: State, a: Action, rest: seq<Action>, snapshot: int)
    requires InSweep(s, snapshot) && SweepsThrough(Step(s, a), rest, snapshot)
    ensures SweepsThrough(s, [a] + rest, snapshot)
  {
    assert ([a] + rest)[1..] == rest;
  }

  lemma ThroughFour(s: State, s1: State, s2: State, s3: State, a: Action, b: Action, c: Action, d: Action,
                    snapshot: int)
    requires s1 == Step(s, a) && s2 == Step(s1, b) && s3 == Step(s2, c)
    requires InSweep(s, snapshot) && InSweep(s1, snapshot) && InSweep(s2, snapshot) && InSweep(s3, snapshot)
    requires SweepsThrough(Step(s3, d), [], snapshot)
    ensures SweepsThrough(s, [a, b, c, d], snapshot)
  {
    ThroughOne(s3, d, [], snapshot);
    ThroughOne(s2, c, [d], snapshot);
    ThroughOne(s1, b, [c, d], snapshot);
    ThroughOne(s, a, [b, c, d], snapshot);
    assert [d] + [] == [d] && [c] + [d] == [c, d] && [b] + [c, d] == [b, c, d] && [a] + [b, c, d] == [a, b, c, d];
  }
}
