/** The statistics object as two threads see it: counters are incremented at any time, and its own pool thread fires the
    one timer, which re-arms itself and drains the counters one by one. */
module StatisticsMachine {
  import opened Integers
  import opened BlockingDequeues
  import opened TimerPools
  import opened AppStatistics

  /** Where the pool thread of the statistics object stands. */
  datatype PoolPc =
    | Top
    | Sweeping(snapshot: int)
    | Fired(snapshot: int)                    // its timer is off the queue, the handler begins
    | Stamped(snapshot: int, readAt: int)     // clock read for the new timer
    | Draining(snapshot: int, next: nat)      // re-armed, counters below `next` moved
    | AtFront
    | FrontRead(front: int)
    | Sleeping(from: int, wake: int)

  datatype State = State(
    now: int, period: nat, queue: seq<Timer>, active: seq<uint32>, holding: seq<uint32>, constructed: bool, pc: PoolPc,
    // history only
    counted: seq<nat>,            // increments of each counter
    moves: seq<seq<uint32>>,      // the values of each counter that were moved to holding
    wraps: seq<nat>,              // how often the counter wrapped around
    drains: seq<int>,             // snapshots of the sweeps that fired the timer
    readings: seq<int>)              // clock readings for the timers armed

  function Same<T>(n: nat, x: T): (r: seq<T>)
    ensures |r| == n && forall i :: 0 <= i < n ==> r[i] == x
  {
    seq(n, _ => x)
  }

  /** The pool thread starts before the constructor arms the first timer. */
  function Init(start: int, period: nat, counters: nat): State {
    var zeros: seq<uint32> := Same(counters, 0);
    var none: seq<nat> := Same(counters, 0);
    State(start, period, [], zeros, zeros, false, Top, none, Same(counters, []), none, [], [])
  }

  datatype Action = Tick(span: nat) | ArmFirst | Increment(id: nat) | PoolThread

  predicate Shaped(s: State) {
    |s.active| == |s.holding| == |s.counted| == |s.moves| == |s.wraps|
  }

  function Step(s: State, a: Action): (r: State)
    requires Shaped(s)
    ensures Shaped(r) && |r.active| == |s.active| && r.period == s.period
  {
    match a
    case Tick(span) => s.(now := s.now + span)
    case ArmFirst =>
      if s.constructed then s
      else s.(constructed := true, queue := s.queue + [Timer(s.now + s.period, "")], readings := s.readings + [s.now])
    case Increment(id) =>
      if id >= |s.active| then s
      else s.(active := s.active[id := Incremented(s.active[id])], counted := s.counted[id := s.counted[id] + 1],
              wraps := if s.active[id] == TWO32 - 1 then s.wraps[id := s.wraps[id] + 1] else s.wraps)
    case PoolThread => PoolStep(s)
  }

  function PoolStep(s: State): (r: State)
    requires Shaped(s)
    ensures Shaped(r) && |r.active| == |s.active| && r.period == s.period
  {
    match s.pc
    case Top => s.(pc := Sweeping(s.now))
    case Sweeping(snapshot) =>
      if FirstMatch(s.queue, ExpiredBy(snapshot)) < |s.queue| then
        s.(pc := Fired(snapshot), queue := WithoutFirst(s.queue, ExpiredBy(snapshot)), drains := s.drains + [snapshot])
      else s.(pc := AtFront)
    case Fired(snapshot) => s.(pc := Stamped(snapshot, s.now), readings := s.readings + [s.now])
    case Stamped(snapshot, readAt) => s.(pc := Draining(snapshot, 0), queue := s.queue + [Timer(readAt + s.period, "")])
    case Draining(snapshot, next) =>
      if next < |s.active| then
        s.(pc := Draining(snapshot, next + 1), holding := s.holding[next := s.active[next]],
           moves := s.moves[next := s.moves[next] + [s.active[next]]], active := s.active[next := 0])
      else s.(pc := Sweeping(snapshot))
    case AtFront => if s.queue == [] then s else s.(pc := FrontRead(s.queue[0].deadline))
    case FrontRead(front) => s.(pc := Sleeping(s.now, WakeTime(s.now, front)))
    case Sleeping(_, wake) => if s.now >= wake then s.(pc := Top) else s
  }

  // ---- Invariants ----

  function Sum(xs: seq<uint32>): nat {
    if xs == [] then 0 else Sum(xs[..|xs| - 1]) + xs[|xs| - 1]
  }

  /** Nothing counted is lost: it has been moved, is still active, or went into a wrap-around. */
  ghost predicate Conserved(s: State) {
    && Shaped(s)
    && forall i :: 0 <= i < |s.active| ==> s.counted[i] == Sum(s.moves[i]) + s.active[i] + TWO32 * s.wraps[i]
  }

  /** The drain under way has not reached the counter yet. */
  predicate Awaits(pc: PoolPc, id: nat) {
    pc.Fired? || pc.Stamped? || (pc.Draining? && pc.next <= id)
  }

  /** The holding register shows what was moved last, and each firing moves each counter once. */
  ghost predicate Shown(s: State) {
    && Shaped(s)
    && forall i :: 0 <= i < |s.active| ==> MovedEachTime(s.moves[i], s.holding[i], |s.drains|, Awaits(s.pc, i))
  }

  predicate MovedEachTime(moves: seq<uint32>, holding: uint32, drains: nat, awaits: bool) {
    && |moves| + (if awaits then 1 else 0) == drains
    && holding == if moves == [] then 0 else moves[|moves| - 1]
  }

  /** Once the first timer is armed there is exactly one, except while its own expiry is re-arming it; it is due exactly
      one period after the clock reading that armed it. */
  ghost predicate OneTimer(s: State) {
    && (!s.constructed ==>
          && s.queue == [] && s.drains == [] && s.readings == []
          && (s.pc.Top? || s.pc.Sweeping? || s.pc.AtFront?))
    && (s.constructed ==> |s.queue| == if s.pc.Fired? || s.pc.Stamped? then 0 else 1)
    && |s.readings| == (if s.constructed then 1 else 0) + |s.drains| - (if s.pc.Fired? then 1 else 0)
    && (s.queue != [] ==> s.readings != [] && s.queue[0].deadline == s.readings[|s.readings| - 1] + s.period)
    && (s.pc.Stamped? ==> s.readings != [] && s.pc.readAt == s.readings[|s.readings| - 1])
  }

  /** Every firing comes more than a period after the clock reading that armed the timer, and no later than the reading
      that arms the next one. */
  ghost predicate FiringsPaced(drains: seq<int>, readings: seq<int>, period: nat) {
    && (forall i :: 0 <= i < |drains| && i < |readings| ==> readings[i] + period < drains[i])
    && (forall i :: 0 <= i < |drains| && i + 1 < |readings| ==> drains[i] <= readings[i + 1])
  }

  /** What the pool thread's place says about the latest firing and the latest reading. */
  ghost predicate InTime(s: State) {
    && (s.pc.Sweeping? || s.pc.Fired? || s.pc.Stamped? || s.pc.Draining? ==> s.pc.snapshot <= s.now)
    && (s.pc.Fired? ==> s.drains != [] && s.drains[|s.drains| - 1] == s.pc.snapshot)
    && (s.pc.Draining? ==> s.readings != [] && s.pc.snapshot <= s.readings[|s.readings| - 1])
    && (s.pc.Stamped? ==> s.pc.snapshot <= s.pc.readAt)
  }

  ghost predicate Paced(s: State) {
    FiringsPaced(s.drains, s.readings, s.period) && InTime(s)
  }

  /** The sleep is for the one timer: it ends within a millisecond before its deadline, or at once when that is past. */
  ghost predicate Rested(s: State) {
    match s.pc
    case FrontRead(front) => s.constructed && s.queue != [] && front == s.queue[0].deadline
    case Sleeping(from, wake) =>
      && s.constructed && s.queue != [] && from <= s.now
      && (if s.queue[0].deadline < from then wake == from
          else wake <= s.queue[0].deadline < wake + 1_000_000 && from <= wake)
    case _ => true
  }

  ghost predicate Inv(s: State) {
    Conserved(s) && Shown(s) && OneTimer(s) && Paced(s) && Rested(s)
  }

  // ---- Every step keeps them ----

  lemma SumAppend(xs: seq<uint32>, x: uint32)
    ensures Sum(xs + [x]) == Sum(xs) + x
  {
    assert (xs + [x])[..|xs|] == xs;
  }

  lemma IncrementConserves(s: State, id: nat)
    requires Conserved(s)
    ensures Conserved(Step(s, Increment(id)))
  {
  }

  lemma DrainConserves(s: State, i: nat)
    requires Conserved(s) && i < |s.active|
    ensures var s' := PoolStep(s);
            s'.counted[i] == Sum(s'.moves[i]) + s'.active[i] + TWO32 * s'.wraps[i]
  {
    if s.pc.Draining? && s.pc.next == i {
      SumAppend(s.moves[i], s.active[i]);
    }
    assert PoolStep(s).counted == s.counted && PoolStep(s).wraps == s.wraps;
  }

  lemma ConservedKept(s: State, a: Action)
    requires Conserved(s)
    ensures Conserved(Step(s, a))
  {
    match a
    case Increment(id) => IncrementConserves(s, id);
    case PoolThread =>
      forall i | 0 <= i < |s.active|
        ensures var s' := PoolStep(s); s'.counted[i] == Sum(s'.moves[i]) + s'.active[i] + TWO32 * s'.wraps[i]
      {
        DrainConserves(s, i);
      }
    case _ =>
  }

  lemma MovedOnce(moves: seq<uint32>, holding: uint32, drains: nat, x: uint32)
    requires MovedEachTime(moves, holding, drains, true)
    ensures MovedEachTime(moves + [x], x, drains, false)
  {
  }

  lemma ShownPool(s: State, i: nat)
    requires Shown(s) && i < |s.active|
    ensures var s' := PoolStep(s); MovedEachTime(s'.moves[i], s'.holding[i], |s'.drains|, Awaits(s'.pc, i))
  {
    assert MovedEachTime(s.moves[i], s.holding[i], |s.drains|, Awaits(s.pc, i));
    if s.pc.Draining? && s.pc.next == i {
      MovedOnce(s.moves[i], s.holding[i], |s.drains|, s.active[i]);
    }
  }

  lemma ShownKept(s: State, a: Action)
    requires Shown(s)
    ensures Shown(Step(s, a))
  {
    var s' := Step(s, a);
    forall i | 0 <= i < |s.active|
      ensures MovedEachTime(s'.moves[i], s'.holding[i], |s'.drains|, Awaits(s'.pc, i))
    {
      if a.PoolThread? {
        ShownPool(s, i);
      } else {
        assert MovedEachTime(s.moves[i], s.holding[i], |s.drains|, Awaits(s.pc, i));
      }
    }
  }

  lemma OneTimerPool(s: State)
    requires Shaped(s) && OneTimer(s)
    ensures OneTimer(PoolStep(s))
  {
    if s.pc.Sweeping? && FirstMatch(s.queue, ExpiredBy(s.pc.snapshot)) < |s.queue| {
      OnlyTimerFires(s);
    }
  }

  lemma OneTimerKept(s: State, a: Action)
    requires Shaped(s) && OneTimer(s)
    ensures OneTimer(Step(s, a))
  {
    if a.PoolThread? {
      OneTimerPool(s);
    }
  }

  /** A sweep that finds an expired timer finds the one there is. */
  lemma OnlyTimerFires(s: State)
    requires Shaped(s) && OneTimer(s) && s.pc.Sweeping? && FirstMatch(s.queue, ExpiredBy(s.pc.snapshot)) < |s.queue|
    ensures s.constructed && |s.queue| == 1 && s.queue[0].deadline < s.pc.snapshot
    ensures PoolStep(s) == s.(pc := Fired(s.pc.snapshot), queue := [], drains := s.drains + [s.pc.snapshot])
  {
    var expired := ExpiredBy(s.pc.snapshot);
    assert |s.queue| == 1 && FirstMatch(s.queue, expired) == 0 && expired(s.queue[0]);
    assert s.queue[..0] + s.queue[1..] == [];
  }

  lemma FiringsAppend(drains: seq<int>, readings: seq<int>, period: nat, snapshot: int)
    requires FiringsPaced(drains, readings, period) && |readings| == |drains| + 1
    requires readings[|drains|] + period < snapshot
    ensures FiringsPaced(drains + [snapshot], readings, period)
  {
  }

  lemma ReadingsAppend(drains: seq<int>, readings: seq<int>, period: nat, now: int)
    requires FiringsPaced(drains, readings, period) && |readings| == |drains| > 0 && drains[|drains| - 1] <= now
    ensures FiringsPaced(drains, readings + [now], period)
  {
  }

  lemma InTimePool(s: State)
    requires Shaped(s) && OneTimer(s) && InTime(s)
    ensures InTime(PoolStep(s))
  {
  }

  lemma FiringsPacedPool(s: State)
    requires Shaped(s) && OneTimer(s) && Paced(s)
    ensures FiringsPaced(PoolStep(s).drains, PoolStep(s).readings, s.period)
  {
    if s.pc.Sweeping? && FirstMatch(s.queue, ExpiredBy(s.pc.snapshot)) < |s.queue| {
      OnlyTimerFires(s);
      FiringsAppend(s.drains, s.readings, s.period, s.pc.snapshot);
    } else if s.pc.Fired? {
      ReadingsAppend(s.drains, s.readings, s.period, s.now);
    } else {
      assert PoolStep(s).drains == s.drains && PoolStep(s).readings == s.readings;
    }
  }

  lemma PacedKept(s: State, a: Action)
    requires Shaped(s) && OneTimer(s) && Paced(s)
    ensures Paced(Step(s, a))
  {
    match a
    case PoolThread =>
      InTimePool(s);
      FiringsPacedPool(s);
    case ArmFirst => assert s.constructed || (s.drains == [] && s.readings == []);
    case _ =>
  }

  lemma RestedKept(s: State, a: Action)
    requires Shaped(s) && OneTimer(s) && Rested(s)
    ensures Rested(Step(s, a))
  {
    if a.PoolThread? && s.pc.FrontRead? {
      WakeBounds(s.now, s.pc.front);
    }
  }

  lemma StepKeeps(s: State, a: Action)
    requires Inv(s)
    ensures Inv(Step(s, a))
  {
    ConservedKept(s, a);
    ShownKept(s, a);
    OneTimerKept(s, a);
    PacedKept(s, a);
    RestedKept(s, a);
  }

  function Run(s: State, schedule: seq<Action>): (r: State)
    requires Shaped(s)
    ensures Shaped(r) && |r.active| == |s.active| && r.period == s.period
    decreases |schedule|
  {
    if schedule == [] then s else Run(Step(s, schedule[0]), schedule[1..])
  }

  lemma {:induction false} RunKeeps(s: State, schedule: seq<Action>)
    requires Inv(s)
    ensures Inv(Run(s, schedule))
    decreases |schedule|
  {
    if schedule != [] {
      StepKeeps(s, schedule[0]);
      RunKeeps(Step(s, schedule[0]), schedule[1..]);
    }
  }

  lemma EveryRun(start: int, period: nat, counters: nat, schedule: seq<Action>)
    ensures Inv(Run(Init(start, period, counters), schedule))
  {
    RunKeeps(Init(start, period, counters), schedule);
  }

  // ---- What holds in every run ----

  /** Under any interleaving of increments with the per-counter drain steps, the increments of a counter equal what
      was ever moved plus what is active, modulo 2^32, and exactly so when the counter never wrapped around; and the
      holding register shows what was moved last. */
  lemma CountsAreConserved(start: int, period: nat, counters: nat, schedule: seq<Action>, id: nat)
    requires id < counters
    ensures var s := Run(Init(start, period, counters), schedule);
            && |s.active| == |s.holding| == |s.counted| == |s.moves| == |s.wraps| == counters
            && s.counted[id] % TWO32 == (Sum(s.moves[id]) + s.active[id]) % TWO32
            && (s.counted[id] == Sum(s.moves[id]) + s.active[id] <==> s.wraps[id] == 0)
            && s.holding[id] == if s.moves[id] == [] then 0 else s.moves[id][|s.moves[id]| - 1]
  {
    EveryRun(start, period, counters, schedule);
    var s := Run(Init(start, period, counters), schedule);
    assert MovedEachTime(s.moves[id], s.holding[id], |s.drains|, Awaits(s.pc, id));
  }

  /** Between sweeps there is exactly one timer, due exactly one period after the latest clock reading; the i-th firing
      comes more than a period after the reading that armed its timer and not after the next reading; so consecutive
      drains lie more than a period apart. */
  lemma DrainsArePaced(start: int, period: nat, counters: nat, schedule: seq<Action>)
    ensures var s := Run(Init(start, period, counters), schedule);
            && (s.constructed && !s.pc.Fired? && !s.pc.Stamped? ==>
                  |s.queue| == 1 && s.readings != [] && s.queue[0].deadline == s.readings[|s.readings| - 1] + period)
            && (if s.constructed then |s.readings| == |s.drains| + (if s.pc.Fired? then 0 else 1) else s.drains == [])
            && (forall i :: 0 <= i < |s.drains| && i < |s.readings| ==> s.readings[i] + period < s.drains[i])
            && (forall i :: 0 <= i < |s.drains| && i + 1 < |s.readings| ==> s.drains[i] <= s.readings[i + 1])
            && forall i :: 0 <= i < |s.drains| - 1 ==> s.drains[i + 1] > s.drains[i] + period
  {
    EveryRun(start, period, counters, schedule);
    var s := Run(Init(start, period, counters), schedule);
    forall i | 0 <= i < |s.drains| - 1
      ensures s.drains[i + 1] > s.drains[i] + period
    {
      assert i + 1 < |s.readings|;
      assert s.drains[i] <= s.readings[i + 1];
    }
  }

  /** Re-arming, step by step: whatever happens between the two steps, the timer is due one period after the clock
      stood at the first of them. */
  lemma RearmsAfterPeriod(s: State, between: seq<Action>, read: State, after: State)
    requires Shaped(s) && OneTimer(s) && s.pc.Fired? && read == PoolStep(s) && after == Run(read, between)
    requires forall i :: 0 <= i < |between| ==> !between[i].PoolThread?
    ensures PoolStep(after).queue == [Timer(s.now + s.period, "")]
  {
    assert s.queue == [] && s.constructed;
    assert read.pc == Stamped(s.pc.snapshot, s.now);
    OthersKeepStamp(read, between);
    StampedPushes(after);
  }

  lemma StampedPushes(s: State)
    requires Shaped(s) && s.pc.Stamped? && s.queue == []
    ensures PoolStep(s).queue == [Timer(s.pc.readAt + s.period, "")]
  {
  }

  lemma OtherKeepsStamp(s: State, a: Action)
    requires Shaped(s) && s.constructed && !a.PoolThread?
    ensures Step(s, a).pc == s.pc && Step(s, a).queue == s.queue && Step(s, a).constructed
  {
  }

  lemma {:induction false} OthersKeepStamp(s: State, between: seq<Action>)
    requires Shaped(s) && s.constructed && forall i :: 0 <= i < |between| ==> !between[i].PoolThread?
    ensures Run(s, between).pc == s.pc && Run(s, between).queue == s.queue
    decreases |between|
  {
    if between != [] {
      OtherKeepsStamp(s, between[0]);
      OthersKeepStamp(Step(s, between[0]), between[1..]);
    }
  }

  /** The sleep of the statistics pool, in every run: for the one timer, to within a millisecond before its
      deadline; and it is over exactly when the clock has reached its end. */
  lemma SleepIsTight(start: int, period: nat, counters: nat, schedule: seq<Action>)
    requires Run(Init(start, period, counters), schedule).pc.Sleeping?
    ensures var s := Run(Init(start, period, counters), schedule);
            && |s.queue| == 1 && s.pc.from <= s.now
            && (if s.queue[0].deadline < s.pc.from then s.pc.wake == s.pc.from
                else s.pc.from <= s.pc.wake <= s.queue[0].deadline < s.pc.wake + 1_000_000)
            && (PoolStep(s).pc.Top? <==> s.now >= s.pc.wake)
  {
    EveryRun(start, period, counters, schedule);
  }

  // ---- The pool does drain ----

  /** The timer is armed and the clock has passed its deadline. */
  predicate Overdue(s: State) {
    s.constructed && s.queue != [] && s.queue[0].deadline < s.now
  }

  /** How many turns of its own the pool thread needs at most until the overdue timer has fired. */
  function TurnsToFire(s: State): nat
    requires s.queue != []
  {
    match s.pc
    case Sweeping(snapshot) => if s.queue[0].deadline < snapshot then 1 else 6
    case AtFront => 5
    case FrontRead(_) => 4
    case Sleeping(_, _) => 3
    case Top => 2
    case Draining(_, next) => 7 + if next < |s.active| then |s.active| - next else 0
    case _ => 0
  }

  /** How many more turns until that firing has moved every counter. */
  function TurnsToMove(s: State): nat {
    match s.pc
    case Fired(_) => |s.active| + 2
    case Stamped(_, _) => |s.active| + 1
    case Draining(_, next) => if next < |s.active| then |s.active| - next else 0
    case _ => 0
  }

  /** Every counter has been moved more than `k` times. */
  ghost predicate MovedMore(s: State, k: nat) {
    |s.drains| > k && forall i :: 0 <= i < |s.moves| ==> |s.moves[i]| > k
  }

  /** How many turns until every counter has been moved more than `k` times, when the timer has fired `k` times and is
      overdue, or has fired once more since. */
  function TurnsLeft(s: State, k: nat): nat {
    if |s.drains| == k && s.queue != [] then TurnsToFire(s) + |s.active| + 2
    else if |s.drains| == k + 1 then TurnsToMove(s)
    else 0
  }

  /** On the way: the timer is overdue, or it has fired. */
  predicate OnTheWay(s: State, k: nat) {
    |s.drains| > k || (|s.drains| == k && Overdue(s))
  }

  lemma OthersOnTheWay(s: State, a: Action, k: nat)
    requires Inv(s) && OnTheWay(s, k) && !a.PoolThread?
    ensures OnTheWay(Step(s, a), k) && TurnsLeft(Step(s, a), k) == TurnsLeft(s, k)
  {
  }

  lemma OverdueFires(s: State)
    requires Shaped(s) && OneTimer(s) && Overdue(s) && s.pc.Sweeping? && s.queue[0].deadline < s.pc.snapshot
    ensures PoolStep(s).pc == Fired(s.pc.snapshot) && PoolStep(s).drains == s.drains + [s.pc.snapshot]
  {
    assert ExpiredBy(s.pc.snapshot)(s.queue[0]);
    assert FirstMatch(s.queue, ExpiredBy(s.pc.snapshot)) == 0;
  }

  lemma EarlySweepEnds(s: State)
    requires Shaped(s) && OneTimer(s) && Overdue(s) && s.pc.Sweeping? && s.queue[0].deadline >= s.pc.snapshot
    ensures PoolStep(s) == s.(pc := AtFront)
  {
    assert FirstMatch(s.queue, ExpiredBy(s.pc.snapshot)) == |s.queue|;
  }

  lemma OverdueNearer(s: State, k: nat)
    requires Inv(s) && |s.drains| == k && Overdue(s)
    ensures OnTheWay(PoolStep(s), k) && TurnsLeft(PoolStep(s), k) < TurnsLeft(s, k)
  {
    if s.pc.Sweeping? {
      if s.queue[0].deadline < s.pc.snapshot { OverdueFires(s); } else { EarlySweepEnds(s); }
    }
  }

  lemma FiredNearer(s: State, k: nat)
    requires Inv(s) && |s.drains| > k
    ensures OnTheWay(PoolStep(s), k) && (TurnsLeft(s, k) > 0 ==> TurnsLeft(PoolStep(s), k) < TurnsLeft(s, k))
    ensures TurnsLeft(s, k) == 0 ==> TurnsLeft(PoolStep(s), k) == 0
  {
  }

  lemma AllMovedAtEnd(s: State, k: nat)
    requires Inv(s) && OnTheWay(s, k) && TurnsLeft(s, k) == 0
    ensures MovedMore(s, k)
  {
    forall i | 0 <= i < |s.moves|
      ensures |s.moves[i]| > k
    {
      assert MovedEachTime(s.moves[i], s.holding[i], |s.drains|, Awaits(s.pc, i));
    }
  }

  function PoolSteps(schedule: seq<Action>): nat
    decreases |schedule|
  {
    if schedule == [] then 0 else (if schedule[0].PoolThread? then 1 else 0) + PoolSteps(schedule[1..])
  }

  lemma {:induction false} MovesInTime(s: State, schedule: seq<Action>, k: nat)
    requires Inv(s) && OnTheWay(s, k) && PoolSteps(schedule) >= TurnsLeft(s, k)
    ensures MovedMore(Run(s, schedule), k)
    decreases |schedule|
  {
    if schedule == [] {
      AllMovedAtEnd(s, k);
    } else {
      var a := schedule[0];
      StepKeeps(s, a);
      if !a.PoolThread? {
        OthersOnTheWay(s, a, k);
      } else if |s.drains| == k {
        OverdueNearer(s, k);
      } else {
        FiredNearer(s, k);
      }
      MovesInTime(Step(s, a), schedule[1..], k);
    }
  }

  /** In every run, once the first timer is armed and the clock has passed the deadline of the timer in the queue, a
      fixed number of turns of the pool thread fires it and moves every counter once more. */
  lemma OverdueTimerDrains(start: int, period: nat, counters: nat, before: seq<Action>, schedule: seq<Action>)
    requires var s := Run(Init(start, period, counters), before);
             Overdue(s) && PoolSteps(schedule) >= TurnsToFire(s) + counters + 2
    ensures var s := Run(Init(start, period, counters), before);
            var s' := Run(s, schedule);
            && |s'.drains| > |s.drains| && |s'.moves| == counters
            && forall i :: 0 <= i < counters ==> |s'.moves[i]| > |s.drains|
  {
    EveryRun(start, period, counters, before);
    var s := Run(Init(start, period, counters), before);
    MovesInTime(s, schedule, |s.drains|);
  }

  // ---- Without interference ----

  lemma {:induction false} RunConcat(s: State, a: seq<Action>, b: seq<Action>)
    requires Shaped(s)
    ensures Run(s, a + b) == Run(Run(s, a), b)
    decreases |a|
  {
    if a == [] {
      assert a + b == b;
    } else {
      assert (a + b)[0] == a[0] && (a + b)[1..] == a[1..] + b;
      RunConcat(Step(s, a[0]), a[1..], b);
    }
  }

  lemma RunTwice(s: State, a: Action, b: Action)
    requires Shaped(s)
    ensures Run(s, [a, b]) == Step(Step(s, a), b)
  {
    assert [a, b][1..] == [b] && [b][1..] == [];
    assert Run(Step(s, a), [b]) == Run(Step(Step(s, a), b), []);
  }

  /** A drain without interference is what `MoveActiveToHold` does in one go. */
  lemma {:induction false} DrainAlone(s: State)
    requires Shaped(s) && s.pc.Draining? && s.pc.next <= |s.active|
    ensures var n := |s.active| - s.pc.next;
            var s' := Run(s, Same(n, PoolThread));
            && s'.pc == Draining(s.pc.snapshot, |s.active|) && s'.queue == s.queue && s'.now == s.now
            && forall i :: 0 <= i < |s.active| ==>
                 if i < s.pc.next then s'.active[i] == s.active[i] && s'.holding[i] == s.holding[i]
                 else s'.active[i] == 0 && s'.holding[i] == s.active[i]
    decreases |s.active| - s.pc.next
  {
    if s.pc.next < |s.active| {
      var n := |s.active| - s.pc.next;
      DrainAlone(Step(s, PoolThread));
      assert Same(n, PoolThread)[1..] == Same((n - 1) as nat, PoolThread);
    }
  }

  /** One round of the pool thread from the top of its loop to the end of its sweep, without interference. */
  function Round(counters: nat, fires: bool): seq<Action> {
    if fires then
      ([PoolThread, PoolThread] + [PoolThread, PoolThread]) + (Same(counters, PoolThread) + [PoolThread, PoolThread])
    else [PoolThread, PoolThread]
  }

  /** What the round does to queue and registers: the effect of `AppStats.SweepExpired` with the clock standing
      still. */
  ghost predicate RoundDone(s: State, s': State) {
    var firings := |Selected(s.queue, ExpiredBy(s.now))|;
    && s'.pc.AtFront? && firings <= 1
    && s'.queue == Rejected(s.queue, ExpiredBy(s.now)) + Rearmed([s.now][..firings], s.period)
    && Drained(s.active, s.holding, firings, s'.active, s'.holding)
  }

  lemma FiringHalf(s: State)
    requires Shaped(s) && OneTimer(s) && s.pc.Top? && s.constructed && s.queue[0].deadline < s.now
    ensures var s' := Run(s, [PoolThread, PoolThread]);
            && s'.pc == Fired(s.now) && s'.queue == [] && s'.now == s.now
            && s'.active == s.active && s'.holding == s.holding
  {
    RunTwice(s, PoolThread, PoolThread);
    var s1 := PoolStep(s);
    assert ExpiredBy(s.now)(s1.queue[0]) && FirstMatch(s1.queue, ExpiredBy(s.now)) == 0;
    assert s1.queue[..0] + s1.queue[1..] == [];
  }

  lemma RearmingHalf(s: State)
    requires Shaped(s) && s.pc.Fired? && s.queue == []
    ensures var s' := Run(s, [PoolThread, PoolThread]);
            && s'.pc == Draining(s.pc.snapshot, 0) && s'.queue == [Timer(s.now + s.period, "")]
            && s'.now == s.now && s'.active == s.active && s'.holding == s.holding
  {
    RunTwice(s, PoolThread, PoolThread);
  }

  lemma ClosingHalf(s: State, snapshot: int)
    requires Shaped(s) && s.pc == Draining(snapshot, |s.active|) && |s.queue| == 1 && s.queue[0].deadline >= snapshot
    ensures var s' := Run(s, [PoolThread, PoolThread]);
            s'.pc.AtFront? && s'.queue == s.queue && s'.active == s.active && s'.holding == s.holding
  {
    RunTwice(s, PoolThread, PoolThread);
    assert PoolStep(s) == s.(pc := Sweeping(snapshot));
    assert FirstMatch(s.queue, ExpiredBy(snapshot)) == |s.queue|;
  }

  lemma DrainingHalf(s: State, snapshot: int)
    requires Shaped(s) && s.pc == Draining(snapshot, 0)
    ensures var s', n := Run(s, Same(|s.active|, PoolThread)), |s.active|;
            && s'.pc == Draining(snapshot, n) && s'.queue == s.queue
            && s'.holding == s.active && s'.active == Same(n, 0)
  {
    DrainAlone(s);
  }

  lemma FiringAndRearming(s: State)
    requires Shaped(s) && OneTimer(s) && s.pc.Top? && s.constructed && s.queue[0].deadline < s.now
    ensures var s' := Run(s, [PoolThread, PoolThread] + [PoolThread, PoolThread]);
            && s'.pc == Draining(s.now, 0) && s'.queue == [Timer(s.now + s.period, "")]
            && s'.active == s.active && s'.holding == s.holding
  {
    FiringHalf(s);
    RearmingHalf(Run(s, [PoolThread, PoolThread]));
    RunConcat(s, [PoolThread, PoolThread], [PoolThread, PoolThread]);
  }

  lemma DrainingAndClosing(s: State, snapshot: int)
    requires Shaped(s) && s.pc == Draining(snapshot, 0) && |s.queue| == 1 && s.queue[0].deadline >= snapshot
    ensures var s' := Run(s, Same(|s.active|, PoolThread) + [PoolThread, PoolThread]);
            && s'.pc.AtFront? && s'.queue == s.queue
            && s'.holding == s.active && s'.active == Same(|s.active|, 0)
  {
    DrainingHalf(s, snapshot);
    ClosingHalf(Run(s, Same(|s.active|, PoolThread)), snapshot);
    RunConcat(s, Same(|s.active|, PoolThread), [PoolThread, PoolThread]);
  }

  lemma FiringRound(s: State)
    requires Shaped(s) && OneTimer(s) && s.pc.Top? && s.constructed && s.queue[0].deadline < s.now
    ensures var s' := Run(s, Round(|s.active|, true));
            && s'.pc.AtFront? && s'.queue == [Timer(s.now + s.period, "")]
            && s'.holding == s.active && s'.active == Same(|s.active|, 0)
  {
    var four := [PoolThread, PoolThread] + [PoolThread, PoolThread];
    FiringAndRearming(s);
    DrainingAndClosing(Run(s, four), s.now);
    RunConcat(s, four, Same(|s.active|, PoolThread) + [PoolThread, PoolThread]);
  }

  lemma QuietRound(s: State)
    requires Shaped(s) && OneTimer(s) && s.pc.Top? && s.constructed && s.queue[0].deadline >= s.now
    ensures Run(s, [PoolThread, PoolThread]) == s.(pc := AtFront)
  {
    RunTwice(s, PoolThread, PoolThread);
    assert |s.queue| == 1 && FirstMatch(s.queue, ExpiredBy(s.now)) == |s.queue|;
  }

  lemma OneTimerSelection(t: Timer, now: int, period: nat)
    ensures Selected([t], ExpiredBy(now)) == (if t.deadline < now then [t] else [])
    ensures Rejected([t], ExpiredBy(now)) == (if t.deadline < now then [] else [t])
    ensures Rearmed([now][..1], period) == [Timer(now + period, "")] && Rearmed([now][..0], period) == []
  {
    assert [t][1..] == [] && [now][..1] == [now];
  }

  /** An undisturbed round of the pool thread, from any state that a run can reach, does to queue and registers what the
      class's sweep does. */
  lemma RoundIsSweepExpired(s: State)
    requires Shaped(s) && OneTimer(s) && s.pc.Top? && s.constructed
    ensures RoundDone(s, Run(s, Round(|s.active|, s.queue[0].deadline < s.now)))
  {
    var t := s.queue[0];
    assert s.queue == [t];
    OneTimerSelection(t, s.now, s.period);
    if t.deadline < s.now {
      FiringRound(s);
    } else {
      QuietRound(s);
    }
  }

  /** After a sweep the pool thread waits exactly as long as the queue is empty. */
  lemma WaitsWhileEmpty(s: State)
    requires Shaped(s) && s.pc.AtFront?
    ensures if s.queue == [] then PoolStep(s) == s else PoolStep(s).pc.FrontRead?
  {
  }

  lemma FirstArmed(start: int, period: nat, counters: nat)
    requires counters > 0
    ensures var s := Run(Init(start, period, counters), [ArmFirst, Increment(0)] + [Tick(period + 1)]);
            && s.constructed && s.pc.Top? && s.queue == [Timer(start + period, "")] && s.now == start + period + 1
            && s.active == Same(counters, 0)[0 := 1]
  {
    var s0 := Init(start, period, counters);
    RunTwice(s0, ArmFirst, Increment(0));
    var s2 := Run(s0, [ArmFirst, Increment(0)]);
    assert s2.queue == [Timer(start + period, "")] && s2.active == Same(counters, 0)[0 := 1];
    RunConcat(s0, [ArmFirst, Increment(0)], [Tick(period + 1)]);
    assert [Tick(period + 1)][1..] == [];
  }

  /** An event counted before the first period is over shows in the holding register after the next round. */
  lemma FirstDrain(start: int, period: nat, counters: nat)
    requires counters > 0
    ensures var before := [ArmFirst, Increment(0)] + [Tick(period + 1)];
            var s := Run(Init(start, period, counters), before + Round(counters, true));
            && s.holding == Same(counters, 0)[0 := 1] && s.active == Same(counters, 0)
            && s.queue == [Timer(start + 2 * period + 1, "")]
  {
    var s0, before := Init(start, period, counters), [ArmFirst, Increment(0)] + [Tick(period + 1)];
    FirstArmed(start, period, counters);
    EveryRun(start, period, counters, before);
    FiringRound(Run(s0, before));
    RunConcat(s0, before, Round(counters, true));
  }
}
