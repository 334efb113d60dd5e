/** The message handler object over the real cache, pool, reporter and statistics objects, with each call run to
    completion, and its agreement with the step-by-step engine. */
module ReceivedMessageHandlers {
  import opened Wrappers
  import opened Integers
  import opened BlockingDequeues
  import opened TimerPools
  import opened SimpleMapCaches
  import opened AppStatistics
  import M = PairingMachine
  import I = PairingInvariants
  import C = CoarsePairing

  const NUM_RECEIVED_MSGS: nat := 0
  const NUM_PAIRED_REQUESTS: nat := 1
  const NUM_PAIRING_ATTEMPTS_EXPIRED: nat := 2
  const NUM_COUNTERS_USED: nat := 3

  class ResultReporter {
    var reports: seq<M.Report>

    constructor ()
      ensures reports == []
    {
      reports := [];
    }

    method ReportPair(req: M.Message, rsp: M.Message)
      modifies this
      ensures reports == old(reports) + [M.Report(req, rsp)]
    {
      reports := reports + [M.Report(req, rsp)];
    }
  }

  /** What the handler shares between its two entry points. */
  datatype Shared = Shared(cache: map<string, M.Message>, queue: seq<Timer>, reports: seq<M.Report>)

  /** One message: completes the waiting message of its key, or waits with a timer of its own. */
  function Handle(s: Shared, m: M.Message, deadline: int): Shared {
    if m.key in s.cache then
      Shared(s.cache - {m.key}, WithoutFirst(s.queue, HasId(m.key)), s.reports + [M.Report(s.cache[m.key], m)])
    else Shared(s.cache[m.key := m], s.queue + [Timer(deadline, m.key)], s.reports)
  }

  function Bumped(counters: seq<uint32>, id: nat): seq<uint32> {
    if id < |counters| then counters[id := Incremented(counters[id])] else counters
  }

  function BumpedTimes(counters: seq<uint32>, id: nat, times: nat): seq<uint32> {
    if times == 0 then counters else Bumped(BumpedTimes(counters, id, times - 1), id)
  }

  /** The ids of a batch of timers. */
  function IdSet(q: seq<Timer>): set<string> {
    set t <- q :: t.id
  }

  /** The handler's whole state: what it shares, and the active statistics registers. */
  datatype Ledger = Ledger(shared: Shared, counters: seq<uint32>)

  /** The calls that change it, each run to its end. */
  datatype HandlerCall = HandleCall(msg: M.Message, deadline: int) | SweepCall(snapshot: int)

  function Called(l: Ledger, c: HandlerCall): Ledger {
    match c
    case HandleCall(m, deadline) =>
      var received := Bumped(l.counters, NUM_RECEIVED_MSGS);
      Ledger(Handle(l.shared, m, deadline),
             if m.key in l.shared.cache then Bumped(received, NUM_PAIRED_REQUESTS) else received)
    case SweepCall(snapshot) =>
      var fired := Selected(l.shared.queue, ExpiredBy(snapshot));
      Ledger(Shared(l.shared.cache - IdSet(fired), Rejected(l.shared.queue, ExpiredBy(snapshot)), l.shared.reports),
             BumpedTimes(l.counters, NUM_PAIRING_ATTEMPTS_EXPIRED, |fired|))
  }

  /** Every message is cached under its own key. */
  ghost predicate KeyedByOwn(cache: map<string, M.Message>) {
    forall k <- cache :: cache[k].key == k
  }

  class SimpleSyncReceivedMessageHandler {
    const msgCache: SimpleMapCache<M.Message>
    const pool: TimerPool
    const reporter: ResultReporter
    const stats: AppStats

    constructor (msgCache: SimpleMapCache<M.Message>, pool: TimerPool, reporter: ResultReporter, stats: AppStats)
      requires stats.Valid() && stats.numberStats == NUM_COUNTERS_USED && KeyedByOwn(msgCache.entries)
      ensures Valid()
      ensures this.msgCache == msgCache && this.pool == pool && this.reporter == reporter && this.stats == stats
      ensures stats.numberStats == 3
    {
      this.msgCache, this.pool, this.reporter, this.stats := msgCache, pool, reporter, stats;
    }

    ghost predicate Valid()
      reads msgCache
    {
      stats.Valid() && stats.numberStats == NUM_COUNTERS_USED && KeyedByOwn(msgCache.entries)
    }

    ghost function Contents(): Shared
      reads msgCache, pool.queue, reporter
    {
      Shared(msgCache.entries, pool.queue.queue, reporter.reports)
    }

    ghost function Total(): Ledger
      reads msgCache, pool.queue, reporter, stats.active
    {
      Ledger(Contents(), stats.active[..])
    }

    /** `clock` is the steady clock when the timer of an unpaired message is armed. */
    method HandleMessage(msg: M.Message, clock: int) returns (r: Result<(), CacheError>)
      requires Valid()
      modifies msgCache, pool.queue, reporter, stats.active
      ensures Valid() && r.Success?
      ensures Contents() == Handle(old(Contents()), msg, clock + pool.duration)
      ensures Total() == Called(old(Total()), HandleCall(msg, clock + pool.duration))
    {
      stats.IncrementCounter(NUM_RECEIVED_MSGS);
      var found := msgCache.Lookup(msg.key);
      if found != 0 {
        var pair := msgCache.PopObject(msg.key);
        stats.IncrementCounter(NUM_PAIRED_REQUESTS);
        reporter.ReportPair(pair.value, msg);
        var _ := pool.DeleteTimer(pair.value.key);
        r := Success(());
      } else {
        r := msgCache.Add(msg.key, msg);
        pool.AddNewTimer(msg.key, clock);
      }
    }

    method OnTimerExpiry(id: string)
      requires Valid()
      modifies msgCache, stats.active
      ensures Valid()
      ensures msgCache.entries == old(msgCache.entries) - {id}
      ensures stats.active[..] == Bumped(old(stats.active[..]), NUM_PAIRING_ATTEMPTS_EXPIRED)
      ensures stats.active[0] == old(stats.active[0]) && stats.active[1] == old(stats.active[1])
      ensures stats.active[2] == Incremented(old(stats.active[2]))
    {
      var _ := msgCache.PopObject(id);
      stats.IncrementCounter(NUM_PAIRING_ATTEMPTS_EXPIRED);
    }

    /** The pool thread's sweep with this handler: fires exactly the timers whose deadline lies before the snapshot,
        leaves the others in order, evicts the keys of the fired ones and counts each firing. */
    method SweepExpired(snapshot: int)
      requires Valid()
      modifies msgCache, pool.queue, stats.active
      ensures Valid()
      ensures var fired := Selected(old(pool.queue.queue), ExpiredBy(snapshot));
              && pool.queue.queue == Rejected(old(pool.queue.queue), ExpiredBy(snapshot))
              && msgCache.entries == old(msgCache.entries) - IdSet(fired)
              && stats.active[..] == BumpedTimes(old(stats.active[..]), NUM_PAIRING_ATTEMPTS_EXPIRED, |fired|)
      ensures Total() == Called(old(Total()), SweepCall(snapshot))
    {
      ghost var q0, entries0, active0 := pool.queue.queue, msgCache.entries, stats.active[..];
      ghost var all := Selected(q0, ExpiredBy(snapshot));
      ghost var n := 0;
      assert IdSet(all[..0]) == {} && entries0 - {} == entries0;
      var next := RetrieveExpired(snapshot, q0, 0);
      while next.Some?
        invariant Valid()
        invariant Pending(next, pool.queue.queue, q0, snapshot, n)
        invariant msgCache.entries == entries0 - IdSet(all[..n])
        invariant stats.active[..] == BumpedTimes(active0, NUM_PAIRING_ATTEMPTS_EXPIRED, n)
        decreases |all| - n
      {
        OnTimerExpiry(next.value.id);
        FiredOneMore(entries0, all, n);
        n := n + 1;
        next := RetrieveExpired(snapshot, q0, n);
      }
      assert all[..n] == all;
    }

    /** One look of a sweep that started with `q0` and has fired `n` timers. */
    method RetrieveExpired(snapshot: int, ghost q0: seq<Timer>, ghost n: nat) returns (next: Option<Timer>)
      requires LeftOver(pool.queue.queue, q0, snapshot, n)
      modifies pool.queue
      ensures Pending(next, pool.queue.queue, q0, snapshot, n)
    {
      LookAgain(pool.queue.queue, q0, snapshot, n);
      next := pool.queue.RetrieveOneIf(ExpiredBy(snapshot));
    }
  }

  /** `q` is what a sweep over `q0` leaves after `n` firings. */
  ghost predicate LeftOver(q: seq<Timer>, q0: seq<Timer>, snapshot: int, n: nat) {
    var all := Selected(q0, ExpiredBy(snapshot));
    && n <= |all| && Selected(q, ExpiredBy(snapshot)) == all[n..]
    && Rejected(q, ExpiredBy(snapshot)) == Rejected(q0, ExpiredBy(snapshot))
  }

  /** After `n` firings the next timer to fire, if any, has just been taken off the queue. */
  ghost predicate Pending(next: Option<Timer>, q: seq<Timer>, q0: seq<Timer>, snapshot: int, n: nat) {
    var all := Selected(q0, ExpiredBy(snapshot));
    if next.Some? then n < |all| && next.value == all[n] && LeftOver(q, q0, snapshot, n + 1)
    else n == |all| && q == Rejected(q0, ExpiredBy(snapshot))
  }

  lemma LookAgain(q: seq<Timer>, q0: seq<Timer>, snapshot: int, n: nat)
    requires LeftOver(q, q0, snapshot, n)
    ensures var i := FirstMatch(q, ExpiredBy(snapshot));
            Pending(if i < |q| then Some(q[i]) else None, WithoutFirst(q, ExpiredBy(snapshot)), q0, snapshot, n)
  {
    RemovalSplitsSelection(q, ExpiredBy(snapshot));
    var all := Selected(q0, ExpiredBy(snapshot));
    if n < |all| {
      TailUnfolds(all, n);
    } else {
      assert all[n..] == [];
    }
  }

  lemma TailUnfolds(all: seq<Timer>, n: nat)
    requires n < |all|
    ensures all[n..] == [all[n]] + all[n + 1..]
  {
  }

  lemma FiredOneMore(entries: map<string, M.Message>, all: seq<Timer>, n: nat)
    requires n < |all|
    ensures entries - IdSet(all[..n]) - {all[n].id} == entries - IdSet(all[..n + 1])
  {
    assert all[..n + 1] == all[..n] + [all[n]];
    assert IdSet(all[..n + 1]) == IdSet(all[..n]) + {all[n].id};
  }

  // ---- Agreement with the step-by-step engine ----

  function SharedOf(s: M.State): Shared {
    Shared(s.cache, s.queue, s.reports)
  }

  /** Undisturbed, the receiver's steps add up to what `HandleMessage` does in one call. */
  lemma HandleMessageIsARun(s: M.State, key: string)
    requires s.rpc.Idle? && KeyedByOwn(s.cache)
    ensures var s' := M.Run(s, C.Alone(key));
            && s'.rpc.Idle?
            && SharedOf(s') == Handle(SharedOf(s), M.Message(|s.arrived|, key), s.now + s.duration)
            && s'.received == s.received + 1
            && s'.paired == s.paired + (if key in s.cache then 1 else 0)
            && s'.expired == s.expired
  {
    if key in s.cache {
      C.PairAlone(s, key);
    } else {
      C.StoreAlone(s, key);
    }
  }

  function PoolTurns(n: nat): seq<M.Action> {
    if n == 0 then [] else [M.TimerThread] + PoolTurns(n - 1)
  }

  /** Two steps of the pool thread: take the first expired timer, run its handler. */
  lemma FireOne(s: M.State)
    requires C.AboutToFire(s)
    ensures var i := FirstMatch(s.queue, ExpiredBy(s.tpc.snapshot));
            var s' := M.Run(s, [M.TimerThread, M.TimerThread]);
            && s'.tpc == s.tpc && s'.expired == s.expired + 1
            && s'.received == s.received && s'.paired == s.paired && s'.rpc == s.rpc
            && SharedOf(s')
               == Shared(s.cache - {s.queue[i].id}, WithoutFirst(s.queue, ExpiredBy(s.tpc.snapshot)), s.reports)
  {
    C.RunTwo(s, M.TimerThread, M.TimerThread);
    var s1 := M.TimerStep(s);
    assert s1.tpc.InFlight? && s1.cache == s.cache;
    assert s.queue[FirstMatch(s.queue, ExpiredBy(s.tpc.snapshot))].id !in s.cache ==>
      s.cache == s.cache - {s.queue[FirstMatch(s.queue, ExpiredBy(s.tpc.snapshot))].id};
  }

  lemma IdSetCons(cache: map<string, M.Message>, t: Timer, rest: seq<Timer>)
    ensures cache - {t.id} - IdSet(rest) == cache - IdSet([t] + rest)
  {
    assert IdSet([t] + rest) == {t.id} + IdSet(rest);
  }

  /** `s'` is what a completed sweep makes of `s`: the effect of `SweepExpired`. */
  ghost predicate SweptFrom(s: M.State, s': M.State)
    requires s.tpc.Sweeping?
  {
    var fired := Selected(s.queue, ExpiredBy(s.tpc.snapshot));
    && s'.tpc.AtFront? && s'.swept == s.tpc.snapshot
    && SharedOf(s') == Shared(s.cache - IdSet(fired), Rejected(s.queue, ExpiredBy(s.tpc.snapshot)), s.reports)
    && s'.expired == s.expired + |fired| && s'.received == s.received && s'.paired == s.paired && s'.rpc == s.rpc
  }

  lemma FireThenSweep(s: M.State, s': M.State)
    requires C.AboutToFire(s)
    requires var s2 := M.Run(s, [M.TimerThread, M.TimerThread]); s2.tpc.Sweeping? && SweptFrom(s2, s')
    ensures SweptFrom(s, s')
  {
    FireOne(s);
    var expired := ExpiredBy(s.tpc.snapshot);
    RemovalSplitsSelection(s.queue, expired);
    IdSetCons(s.cache, s.queue[FirstMatch(s.queue, expired)], Selected(WithoutFirst(s.queue, expired), expired));
  }

  /** Undisturbed, the pool thread's steps from a fresh snapshot to the end of its sweep add up to `SweepExpired`. */
  lemma {:induction false} SweepExpiredIsARun(s: M.State)
    requires s.tpc.Sweeping?
    ensures SweptFrom(s, M.Run(s, PoolTurns(2 * |Selected(s.queue, ExpiredBy(s.tpc.snapshot))| + 1)))
    decreases CountBelow(s.queue, s.tpc.snapshot)
  {
    if C.AboutToFire(s) {
      var two := [M.TimerThread, M.TimerThread];
      var s2 := M.Run(s, two);
      FireLeavesLess(s);
      SweepExpiredIsARun(s2);
      var n := 2 * |Selected(s2.queue, ExpiredBy(s2.tpc.snapshot))| + 1;
      TwoMoreTurns(n);
      M.RunConcat(s, two, PoolTurns(n));
      FireThenSweep(s, M.Run(s2, PoolTurns(n)));
    } else {
      NothingToFire(s);
    }
  }

  lemma FireLeavesLess(s: M.State)
    requires C.AboutToFire(s)
    ensures var s2 := M.Run(s, [M.TimerThread, M.TimerThread]);
            && s2.tpc == s.tpc && CountBelow(s2.queue, s.tpc.snapshot) < CountBelow(s.queue, s.tpc.snapshot)
            && |Selected(s.queue, ExpiredBy(s.tpc.snapshot))| == 1 + |Selected(s2.queue, ExpiredBy(s.tpc.snapshot))|
  {
    var expired := ExpiredBy(s.tpc.snapshot);
    FireOne(s);
    RemovalSplitsSelection(s.queue, expired);
    CountBelowRemoval(s.queue, expired, s.tpc.snapshot);
    assert expired(s.queue[FirstMatch(s.queue, expired)]);
  }

  lemma NothingToFire(s: M.State)
    requires s.tpc.Sweeping? && !C.AboutToFire(s)
    ensures Selected(s.queue, ExpiredBy(s.tpc.snapshot)) == []
    ensures SweptFrom(s, M.Run(s, PoolTurns(1)))
  {
    RemovalSplitsSelection(s.queue, ExpiredBy(s.tpc.snapshot));
    C.RunOne(s, M.TimerThread);
    assert PoolTurns(1) == [M.TimerThread];
    assert s.cache - {} == s.cache;
  }

  lemma TwoMoreTurns(n: nat)
    ensures PoolTurns(n + 2) == [M.TimerThread, M.TimerThread] + PoolTurns(n)
  {
    assert PoolTurns(n + 2) == [M.TimerThread] + PoolTurns(n + 1);
  }

  // ---- What the statistics count ----

  function CalledAll(l: Ledger, calls: seq<HandlerCall>): Ledger {
    if calls == [] then l else Called(CalledAll(l, calls[..|calls| - 1]), calls[|calls| - 1])
  }

  /** A handler with nothing cached, queued, reported or counted. */
  function FreshLedger(): Ledger {
    Ledger(Shared(map[], [], []), [0, 0, 0])
  }

  /** How many messages were handled, and how many timers fired. */
  function HandledBy(calls: seq<HandlerCall>): nat {
    if calls == [] then 0 else HandledBy(calls[..|calls| - 1]) + if calls[|calls| - 1].HandleCall? then 1 else 0
  }

  function FiredBy(calls: seq<HandlerCall>): nat {
    if calls == [] then 0
    else
      var before, last := calls[..|calls| - 1], calls[|calls| - 1];
      var queue := CalledAll(FreshLedger(), before).shared.queue;
      FiredBy(before) + if last.SweepCall? then |Selected(queue, ExpiredBy(last.snapshot))| else 0
  }

  lemma IncrementedCounts(x: uint32, n: nat)
    requires x == n % 0x1_0000_0000
    ensures Incremented(x) == (n + 1) % 0x1_0000_0000
  {
  }

  lemma {:induction false} BumpedThirdTimes(counters: seq<uint32>, times: nat, n: nat)
    requires |counters| == 3 && counters[2] == n % 0x1_0000_0000
    ensures BumpedTimes(counters, 2, times) == counters[2 := (n + times) % 0x1_0000_0000]
  {
    if times > 0 {
      BumpedThirdTimes(counters, times - 1, n);
      IncrementedCounts((n + (times - 1)) % 0x1_0000_0000, n + (times - 1));
    }
  }

  /** The registers hold these three numbers, modulo 2^32. */
  predicate Registers(counters: seq<uint32>, received: nat, paired: nat, expired: nat) {
    counters == [received % 0x1_0000_0000, paired % 0x1_0000_0000, expired % 0x1_0000_0000]
  }

  /** One call: a message counts as received, a report as paired, a fired timer as expired, and nothing else. */
  lemma CallCounts(l: Ledger, c: HandlerCall, received: nat, paired: nat, expired: nat)
    requires Registers(l.counters, received, paired, expired)
    ensures var l' := Called(l, c);
            && |l'.shared.reports| >= |l.shared.reports|
            && Registers(l'.counters, received + (if c.HandleCall? then 1 else 0),
                         paired + (|l'.shared.reports| - |l.shared.reports|),
                         expired + (if c.SweepCall? then |Selected(l.shared.queue, ExpiredBy(c.snapshot))| else 0))
  {
    match c
    case HandleCall(m, deadline) =>
      IncrementedCounts(l.counters[0], received);
      IncrementedCounts(l.counters[1], paired);
    case SweepCall(snapshot) =>
      BumpedThirdTimes(l.counters, |Selected(l.shared.queue, ExpiredBy(snapshot))|, expired);
  }

  /** Over any sequence of calls from a fresh handler, register 0 counts the messages handled, register 1 the reports
      made, and register 2 the timers fired, each modulo 2^32. */
  lemma {:induction false} RegistersCount(calls: seq<HandlerCall>)
    ensures var l := CalledAll(FreshLedger(), calls);
            Registers(l.counters, HandledBy(calls), |l.shared.reports|, FiredBy(calls))
    decreases |calls|
  {
    if calls != [] {
      var before, last := calls[..|calls| - 1], calls[|calls| - 1];
      var l := CalledAll(FreshLedger(), before);
      RegistersCount(before);
      CallCounts(l, last, HandledBy(before), |l.shared.reports|, FiredBy(before));
      assert CalledAll(FreshLedger(), calls) == Called(l, last);
      assert HandledBy(calls) == HandledBy(before) + if last.HandleCall? then 1 else 0;
    }
  }

  // ---- The registers and the engine's totals ----

  /** The handler object and the engine stand at the same point: same cache, queue and reports, and the registers
      hold the engine's totals. */
  predicate AgreesWith(s: M.State, l: Ledger) {
    && SharedOf(s) == l.shared
    && Registers(l.counters, s.received, s.paired, s.expired)
  }

  /** What happens undisturbed, one after the other: a message is handled, the pool thread goes on (in one go through
      a sweep), or time passes. */
  datatype Block = Arrives(key: string) | Pool | Passes(span: nat)

  function Schedule(s: M.State, b: Block): seq<M.Action> {
    match b
    case Arrives(key) => C.Alone(key)
    case Pool =>
      if s.tpc.Sweeping? then PoolTurns(2 * |Selected(s.queue, ExpiredBy(s.tpc.snapshot))| + 1) else [M.TimerThread]
    case Passes(span) => [M.Tick(span)]
  }

  function CallsOf(s: M.State, b: Block): seq<HandlerCall> {
    match b
    case Arrives(key) => [HandleCall(M.Message(|s.arrived|, key), s.now + s.duration)]
    case Pool => if s.tpc.Sweeping? then [SweepCall(s.tpc.snapshot)] else []
    case Passes(_) => []
  }

  lemma MessageCounts(l: Ledger, m: M.Message, deadline: int, received: nat, paired: nat, expired: nat)
    requires Registers(l.counters, received, paired, expired)
    ensures var l' := Called(l, HandleCall(m, deadline));
            && l'.shared == Handle(l.shared, m, deadline)
            && Registers(l'.counters, received + 1, paired + (if m.key in l.shared.cache then 1 else 0), expired)
  {
    CallCounts(l, HandleCall(m, deadline), received, paired, expired);
  }

  lemma MessageAgrees(s: M.State, l: Ledger, key: string)
    requires s.rpc.Idle? && KeyedByOwn(s.cache) && AgreesWith(s, l)
    ensures AgreesWith(M.Run(s, C.Alone(key)), Called(l, CallsOf(s, Arrives(key))[0]))
  {
    var s', m := M.Run(s, C.Alone(key)), M.Message(|s.arrived|, key);
    HandleMessageIsARun(s, key);
    MessageCounts(l, m, s.now + s.duration, s.received, s.paired, s.expired);
    assert SharedOf(s') == Handle(l.shared, m, s.now + s.duration);
  }

  lemma SweepCounts(l: Ledger, snapshot: int, received: nat, paired: nat, expired: nat)
    requires Registers(l.counters, received, paired, expired)
    ensures var l', fired := Called(l, SweepCall(snapshot)), Selected(l.shared.queue, ExpiredBy(snapshot));
            && l'.shared == Shared(l.shared.cache - IdSet(fired), Rejected(l.shared.queue, ExpiredBy(snapshot)),
                                   l.shared.reports)
            && Registers(l'.counters, received, paired, expired + |fired|)
  {
    CallCounts(l, SweepCall(snapshot), received, paired, expired);
  }

  lemma SweepAgrees(s: M.State, l: Ledger)
    requires s.tpc.Sweeping? && AgreesWith(s, l)
    ensures AgreesWith(M.Run(s, Schedule(s, Pool)), Called(l, SweepCall(s.tpc.snapshot)))
  {
    SweepExpiredIsARun(s);
    SweepCounts(l, s.tpc.snapshot, s.received, s.paired, s.expired);
  }

  lemma QuietAgrees(s: M.State, l: Ledger, b: Block)
    requires AgreesWith(s, l) && CallsOf(s, b) == [] && !s.tpc.InFlight?
    ensures var s' := M.Run(s, Schedule(s, b));
            AgreesWith(s', l) && s'.rpc == s.rpc && !s'.tpc.InFlight?
  {
    match b
    case Pool => C.RunOne(s, M.TimerThread);
    case Passes(span) => C.RunOne(s, M.Tick(span));
  }

  lemma KeyedInRuns(s: M.State)
    requires M.Inv(s)
    ensures KeyedByOwn(s.cache)
  {
  }

  lemma AloneKeepsPlace(s: M.State, key: string)
    requires M.Inv(s) && s.rpc.Idle?
    ensures M.Run(s, C.Alone(key)).rpc.Idle? && M.Run(s, C.Alone(key)).tpc == s.tpc
  {
    if key in s.cache { C.PairAlone(s, key); } else { C.StoreAlone(s, key); }
  }

  lemma BlockAgrees(s: M.State, l: Ledger, b: Block)
    requires M.Inv(s) && s.rpc.Idle? && !s.tpc.InFlight? && AgreesWith(s, l)
    ensures var s' := M.Run(s, Schedule(s, b));
            s'.rpc.Idle? && !s'.tpc.InFlight? && AgreesWith(s', CalledAll(l, CallsOf(s, b)))
  {
    var calls := CallsOf(s, b);
    if calls == [] {
      QuietAgrees(s, l, b);
    } else {
      assert calls[..0] == [] && CalledAll(l, calls) == Called(l, calls[0]);
      match b
      case Arrives(key) =>
        KeyedInRuns(s);
        MessageAgrees(s, l, key);
        AloneKeepsPlace(s, key);
      case Pool =>
        SweepAgrees(s, l);
        SweepExpiredIsARun(s);
    }
  }

  /** The engine after these blocks, and the calls they amount to. */
  function Blocks(s: M.State, bs: seq<Block>): M.State
    decreases |bs|
  {
    if bs == [] then s else Blocks(M.Run(s, Schedule(s, bs[0])), bs[1..])
  }

  function AllCalls(s: M.State, bs: seq<Block>): seq<HandlerCall>
    decreases |bs|
  {
    if bs == [] then [] else CallsOf(s, bs[0]) + AllCalls(M.Run(s, Schedule(s, bs[0])), bs[1..])
  }

  lemma CalledAllSnoc(l: Ledger, calls: seq<HandlerCall>, c: HandlerCall)
    ensures CalledAll(l, calls + [c]) == Called(CalledAll(l, calls), c)
  {
    assert (calls + [c])[..|calls|] == calls;
  }

  lemma {:induction false} CalledAllConcat(l: Ledger, a: seq<HandlerCall>, b: seq<HandlerCall>)
    ensures CalledAll(l, a + b) == CalledAll(CalledAll(l, a), b)
    decreases |b|
  {
    if b == [] {
      assert a + b == a;
    } else {
      var front, last := b[..|b| - 1], b[|b| - 1];
      CalledAllConcat(l, a, front);
      CalledAllSnoc(l, a + front, last);
      assert a + b == (a + front) + [last];
    }
  }

  lemma {:induction false} BlocksAgree(s: M.State, l: Ledger, bs: seq<Block>)
    requires M.Inv(s) && s.rpc.Idle? && !s.tpc.InFlight? && AgreesWith(s, l)
    ensures AgreesWith(Blocks(s, bs), CalledAll(l, AllCalls(s, bs)))
    decreases |bs|
  {
    if bs != [] {
      BlockAgrees(s, l, bs[0]);
      I.RunKeeps(s, Schedule(s, bs[0]));
      var s' := M.Run(s, Schedule(s, bs[0]));
      BlocksAgree(s', CalledAll(l, CallsOf(s, bs[0])), bs[1..]);
      CalledAllConcat(l, CallsOf(s, bs[0]), AllCalls(s', bs[1..]));
    }
  }

  /** In every undisturbed run the calls that the handler object receives leave it with the engine's cache, queue and
      reports, and with the engine's totals of received, paired and expired in registers 0, 1 and 2. */
  lemma RegistersAreTotals(start: int, duration: nat, bs: seq<Block>)
    ensures var s := Blocks(M.Init(start, duration), bs);
            var l := CalledAll(FreshLedger(), AllCalls(M.Init(start, duration), bs));
            SharedOf(s) == l.shared && Registers(l.counters, s.received, s.paired, s.expired)
  {
    I.EveryRun(start, duration, []);
    BlocksAgree(M.Init(start, duration), FreshLedger(), bs);
  }
}
