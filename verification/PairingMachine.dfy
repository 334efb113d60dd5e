/** The pairing engine as two threads see it: the receiver thread runs `handleMessage`, the pool thread runs
    `timerPoolProcessor`. Every cache call, queue call and clock reading is a step of its own, and a schedule
    says which thread moves next, how the clock advances and which messages arrive. */
module PairingMachine {
  import opened Wrappers
  import opened BlockingDequeues
  import opened TimerPools

  /** A received message object; the serial number is its identity. */
  datatype Message = Message(serial: nat, key: string)

  /** What the reporter is given: the message that waited and the one that completed the pair. */
  datatype Report = Report(first: Message, second: Message)

  /** Where the receiver thread stands inside `handleMessage`. */
  datatype ReceiverPc =
    | Idle
    | Received(msg: Message)                       // counted, about to look up
    | Found(msg: Message, since: nat)              // lookup said yes when the log had `since` entries
    | Popped(first: Message, msg: Message)         // pair taken out of the cache, not yet reported
    | Reported(first: Message, msg: Message)       // reported, timer not yet deleted
    | Missing(msg: Message)                        // lookup said no, about to add
    | Added(msg: Message)                          // in the cache, clock not yet read for the timer
    | Stamped(msg: Message, readAt: int)           // clock read, timer not yet in the queue
    | Crashed(msg: Message, since: nat)            // the pop returned null: null dereference
    | Rejected(msg: Message)                       // `add` threw its duplicate-key exception

  /** Where the pool thread stands inside `timerPoolProcessor`. */
  datatype TimerPc =
    | Top
    | Sweeping(snapshot: int)
    | InFlight(snapshot: int, timer: Timer)        // timer taken off the queue, handler not yet run
    | AtFront
    | FrontRead(front: int)
    | Sleeping(from: int, wake: int)

  /** History of the calls that change the cache, in the order they took effect. */
  datatype Observation =
    | Stored(msg: Message)
    | Paired(first: Message, msg: Message, swept: int)  // `swept`: snapshot of the last finished sweep
    | Evicted(first: Message, timer: Timer, snapshot: int) // `timer` fired in the sweep with this snapshot
    | Stale(id: string)                                 // a timer fired for a key that was not cached

  /** History of one `addNewTimer` call. */
  datatype Arming = Arming(readAt: int, deadline: int, pushedAt: int, sweptAtPush: int)

  datatype State = State(
    now: int, duration: nat,
    cache: map<string, Message>, queue: seq<Timer>, reports: seq<Report>,
    received: nat, paired: nat, expired: nat,
    rpc: ReceiverPc, tpc: TimerPc,
    // history only: no other field ever depends on these, except for serial numbers and other history
    arrived: seq<Message>,         // messages in arrival order
    handled: nat,                  // how many of them have taken effect on the cache
    evicted: nat, stale: nat,      // timers that fired for a cached key, and for an absent one
    log: seq<Observation>, armed: map<nat, Arming>, swept: int)

  function Init(start: int, duration: nat): State {
    State(start, duration, map[], [], [], 0, 0, 0, Idle, Top, [], 0, 0, 0, [], map[], start)
  }

  datatype Action = Tick(span: nat) | Arrive(key: string) | Receiver | TimerThread

  function Step(s: State, a: Action): State {
    match a
    case Tick(span) => s.(now := s.now + span)
    case Arrive(key) =>
      if s.rpc.Idle? then
        var m := Message(|s.arrived|, key);
        s.(rpc := Received(m), arrived := s.arrived + [m], received := s.received + 1)
      else s
    case Receiver => ReceiverStep(s)
    case TimerThread => TimerStep(s)
  }

  function ReceiverStep(s: State): State {
    match s.rpc
    case Idle => s
    case Received(m) => s.(rpc := if m.key in s.cache then Found(m, |s.log|) else Missing(m))
    case Found(m, since) =>
      if m.key in s.cache then
        var first := s.cache[m.key];
        s.(cache := s.cache - {m.key}, rpc := Popped(first, m),
           handled := s.handled + 1, log := s.log + [Paired(first, m, s.swept)])
      else s.(rpc := Crashed(m, since))
    case Popped(first, m) =>
      s.(rpc := Reported(first, m), paired := s.paired + 1, reports := s.reports + [Report(first, m)])
    case Reported(first, m) => s.(rpc := Idle, queue := WithoutFirst(s.queue, HasId(first.key)))
    case Missing(m) =>
      if m.key in s.cache then s.(rpc := Rejected(m))
      else s.(cache := s.cache[m.key := m], rpc := Added(m), handled := s.handled + 1, log := s.log + [Stored(m)])
    case Added(m) => s.(rpc := Stamped(m, s.now))
    case Stamped(m, readAt) =>
      var deadline := readAt + s.duration;
      s.(rpc := Idle, queue := s.queue + [Timer(deadline, m.key)],
         armed := s.armed[m.serial := Arming(readAt, deadline, s.now, s.swept)])
    case Crashed(_, _) => s
    case Rejected(_) => s
  }

  function TimerStep(s: State): State {
    match s.tpc
    case Top => s.(tpc := Sweeping(s.now))
    case Sweeping(snapshot) =>
      var i := FirstMatch(s.queue, ExpiredBy(snapshot));
      if i < |s.queue| then
        s.(tpc := InFlight(snapshot, s.queue[i]), queue := WithoutFirst(s.queue, ExpiredBy(snapshot)))
      else s.(tpc := AtFront, swept := snapshot)
    case InFlight(snapshot, t) =>
      if t.id in s.cache then
        s.(tpc := Sweeping(snapshot), cache := s.cache - {t.id}, expired := s.expired + 1,
           evicted := s.evicted + 1, log := s.log + [Evicted(s.cache[t.id], t, snapshot)])
      else
        s.(tpc := Sweeping(snapshot), expired := s.expired + 1,
           stale := s.stale + 1, log := s.log + [Stale(t.id)])
    case AtFront => if s.queue == [] then s else s.(tpc := FrontRead(s.queue[0].deadline))
    case FrontRead(front) => s.(tpc := Sleeping(s.now, WakeTime(s.now, front)))
    case Sleeping(_, wake) => if s.now >= wake then s.(tpc := Top) else s
  }

  /** The state after a schedule; every interleaving of the two threads is some schedule. */
  function Run(s: State, schedule: seq<Action>): State
    decreases |schedule|
  {
    if schedule == [] then s else Run(Step(s, schedule[0]), schedule[1..])
  }

  lemma {:induction false} RunConcat(s: State, a: seq<Action>, b: seq<Action>)
    ensures Run(s, a + b) == Run(Run(s, a), b)
    decreases |a|
  {
    if a == [] {
      assert a + b == b;
    } else {
      assert (a + b)[1..] == a[1..] + b;
      RunConcat(Step(s, a[0]), a[1..], b);
    }
  }

  // ---- Reading the history ----

  /** The message object that `pop_object` gave out, if this was such a call. */
  function HandedOut(o: Observation): Option<Message> {
    if o.Paired? || o.Evicted? then Some(o.first) else None
  }

  /** A message has arrived but has not taken effect yet. */
  predicate InHand(pc: ReceiverPc) {
    pc.Received? || pc.Found? || pc.Missing? || pc.Crashed? || pc.Rejected?
  }

  ghost predicate EvictedSince(log: seq<Observation>, since: nat, key: string) {
    exists i :: since <= i < |log| && log[i].Evicted? && log[i].first.key == key
  }

  // ---- Invariants ----

  /** Messages take effect in arrival order, none is lost or duplicated, and only known messages are cached. */
  ghost predicate InOrder(s: State) {
    && (forall i :: 0 <= i < |s.arrived| ==> s.arrived[i].serial == i)
    && s.handled + (if InHand(s.rpc) then 1 else 0) == |s.arrived|
    && (!s.rpc.Idle? ==> s.arrived != [] && s.rpc.msg == s.arrived[|s.arrived| - 1])
    && (s.rpc.Popped? || s.rpc.Reported? ==> s.rpc.first.key == s.rpc.msg.key)
    && (forall k <- s.cache :: IsHandled(s, s.cache[k]) && s.cache[k].key == k)
  }

  ghost predicate IsHandled(s: State, m: Message) {
    m.serial < s.handled <= |s.arrived| && s.arrived[m.serial] == m
  }

  /** What the receiver knows about its key: absent before `add` and before `deleteTimer`, after `add` present only
      with its own message, and after a positive lookup still present unless the pool thread evicted it. */
  ghost predicate KeyKnown(s: State) {
    match s.rpc
    case Missing(m) => m.key !in s.cache
    case Popped(_, m) => m.key !in s.cache
    case Reported(_, m) => m.key !in s.cache
    case Added(m) => m.key in s.cache ==> s.cache[m.key] == m
    case Stamped(m, _) => m.key in s.cache ==> s.cache[m.key] == m
    case Found(m, since) => since <= |s.log| && (m.key in s.cache <==> !EvictedSince(s.log, since, m.key))
    case Crashed(m, since) => since <= |s.log| && EvictedSince(s.log, since, m.key)
    case Rejected(_) => false
    case _ => true
  }

  /** The receiver has put `m` into the cache and has not armed its timer yet. */
  predicate ArmingNow(pc: ReceiverPc, m: Message) {
    (pc.Added? || pc.Stamped?) && pc.msg == m
  }

  /** The timer armed for `m` itself, not some stale timer with the same id. */
  ghost predicate OwnTimerLive(s: State, m: Message) {
    && m.serial in s.armed
    && var own := Timer(s.armed[m.serial].deadline, m.key);
       own in s.queue || (s.tpc.InFlight? && s.tpc.timer == own)
  }

  /** No cached message is ever stranded without its own timer. */
  ghost predicate NoneStranded(s: State) {
    forall k <- s.cache :: ArmingNow(s.rpc, s.cache[k]) || OwnTimerLive(s, s.cache[k])
  }

  /** Each message is armed once, and not before it has been added. */
  ghost predicate ArmedOnce(s: State) {
    && (forall n <- s.armed :: n < s.handled)
    && (forall n <- s.armed :: s.armed[n].deadline == s.armed[n].readAt + s.duration)
    && (s.rpc.Added? || s.rpc.Stamped? ==> s.rpc.msg.serial !in s.armed)
  }

  /** A cached message whose timer was armed has a deadline that no finished sweep has passed, unless the timer
      went into the queue after the last sweep had finished. */
  ghost predicate SweptClean(s: State) {
    && s.swept <= s.now
    && (s.tpc.Sweeping? || s.tpc.InFlight? ==> s.swept <= s.tpc.snapshot <= s.now)
    && (forall n <- s.armed :: s.armed[n].sweptAtPush <= s.swept && s.armed[n].sweptAtPush <= s.armed[n].pushedAt)
    && (forall k <- s.cache :: s.cache[k].serial in s.armed ==> NotOvertaken(s.armed[s.cache[k].serial], s.swept))
  }

  predicate NotOvertaken(a: Arming, swept: int) {
    a.deadline >= swept || a.sweptAtPush == swept
  }

  /** The same for every first half, judged at the moment it was popped. */
  ghost predicate PairsClean(s: State) {
    forall i :: 0 <= i < |s.log| && s.log[i].Paired? ==> PairClean(s.armed, s.log[i])
  }

  ghost predicate PairClean(armed: map<nat, Arming>, o: Observation)
    requires o.Paired?
  {
    && o.first.serial in armed
    && armed[o.first.serial].sweptAtPush <= o.swept
    && NotOvertaken(armed[o.first.serial], o.swept)
  }

  /** The queue is sorted by deadline, and a timer still to be pushed belongs at its end. */
  ghost predicate QueueInTime(s: State) {
    && Sorted(s.queue)
    && (forall t <- s.queue :: t.deadline <= s.now + s.duration)
    && (s.rpc.Stamped? ==> s.rpc.readAt <= s.now && forall t <- s.queue :: t.deadline <= s.rpc.readAt + s.duration)
  }

  /** A sleep that takes any time runs past no deadline, whether its timer was queued when the sleep began, was about to
      be, or is the front of what is left after deletions. */
  ghost predicate SleepInTime(s: State) {
    match s.tpc
    case FrontRead(front) =>
      && front <= s.now + s.duration
      && NoneBefore(s.queue, front)
      && (s.rpc.Stamped? ==> front <= s.rpc.readAt + s.duration)
    case Sleeping(from, wake) =>
      && from <= s.now && wake <= s.now + s.duration
      && (wake > from ==> NoneBefore(s.queue, wake))
      && (wake > from && s.rpc.Stamped? ==> s.rpc.readAt + s.duration >= wake)
    case _ => true
  }

  /** Some message was armed with this deadline. */
  ghost predicate WasArmed(armed: map<nat, Arming>, deadline: int) {
    exists n :: n in armed && armed[n].deadline == deadline
  }

  /** The sleep ends within a millisecond before some armed deadline. */
  ghost predicate EndsBeforeArmed(armed: map<nat, Arming>, wake: int) {
    exists n :: n in armed && wake <= armed[n].deadline < wake + 1_000_000
  }

  /** What the pool thread meets and sleeps for are deadlines that were armed. */
  ghost predicate OnlyArmed(s: State) {
    && (forall t <- s.queue :: WasArmed(s.armed, t.deadline))
    && (s.tpc.InFlight? ==> WasArmed(s.armed, s.tpc.timer.deadline))
    && (s.tpc.FrontRead? ==> WasArmed(s.armed, s.tpc.front))
    && (s.tpc.Sleeping? && s.tpc.wake > s.tpc.from ==> EndsBeforeArmed(s.armed, s.tpc.wake))
  }

  /** Only overdue timers are fired: in the pool thread's hands now, and behind every eviction so far. */
  ghost predicate FiredOverdue(s: State) {
    && (s.tpc.InFlight? ==> s.tpc.timer.deadline < s.tpc.snapshot)
    && (forall i :: 0 <= i < |s.log| && s.log[i].Evicted? ==> EvictedOverdue(s.log[i]))
  }

  predicate EvictedOverdue(o: Observation)
    requires o.Evicted?
  {
    o.timer.id == o.first.key && o.timer.deadline < o.snapshot
  }

  /** Among the queued timers of a key, none is due later than the one armed for the cached message. */
  ghost predicate NewestArmed(s: State) {
    forall k <- s.cache :: s.cache[k].serial in s.armed ==>
      NoLaterTimer(s.queue, k, s.armed[s.cache[k].serial].deadline)
  }

  ghost predicate NoLaterTimer(q: seq<Timer>, key: string, deadline: int) {
    forall t <- q :: t.id == key ==> t.deadline <= deadline
  }

  /** `pop_object` gives out each message object at most once, and never one that is still cached. */
  ghost predicate HandedOutOnce(s: State) {
    && (forall i, j :: 0 <= i < j < |s.log| && HandedOut(s.log[i]).Some? ==> HandedOut(s.log[i]) != HandedOut(s.log[j]))
    && (forall i :: 0 <= i < |s.log| && HandedOut(s.log[i]).Some? ==> IsGone(s, HandedOut(s.log[i]).value))
  }

  ghost predicate IsGone(s: State, m: Message) {
    IsHandled(s, m) && (m.key in s.cache ==> s.cache[m.key] != m)
  }

  /** The counters against each other and against the cache. */
  ghost predicate Balanced(s: State) {
    && s.received == |s.arrived|
    && s.paired == |s.reports|
    && s.expired == s.evicted + s.stale
    && s.handled == 2 * (s.paired + (if s.rpc.Popped? then 1 else 0)) + s.evicted + |s.cache|
  }

  ghost predicate Inv(s: State) {
    InOrder(s) && KeyKnown(s) && NoneStranded(s) && ArmedOnce(s) && SweptClean(s) && PairsClean(s)
    && QueueInTime(s) && SleepInTime(s) && OnlyArmed(s) && FiredOverdue(s) && NewestArmed(s) && HandedOutOnce(s)
    && Balanced(s)
  }
}
