/** The engine in big steps: a message handled without interruption, and a fired timer taken off the queue and
    handled without interruption. Such runs are special schedules of the fine-grained engine, and in them the
    cache and the timer queue agree exactly. */
module CoarsePairing {
  import opened BlockingDequeues
  import opened TimerPools
  import opened PairingMachine
  import opened PairingInvariants

  lemma RunOne(s: State, a: Action)
    ensures Run(s, [a]) == Step(s, a)
  {
    assert [a][1..] == [];
  }

  lemma RunTwo(s: State, a: Action, b: Action)
    ensures Run(s, [a, b]) == Step(Step(s, a), b)
  {
    assert [a, b][1..] == [b];
    RunOne(Step(s, a), b);
  }

  lemma RunFour(s: State, a: Action, b: Action, c: Action, d: Action)
    ensures Run(s, [a, b, c, d]) == Step(Step(Step(Step(s, a), b), c), d)
  {
    assert [a, b, c, d] == [a, b] + [c, d];
    RunTwo(s, a, b);
    RunTwo(Step(Step(s, a), b), c, d);
    RunConcat(s, [a, b], [c, d]);
  }

  /** A message handled without interruption: it arrives and the receiver takes its four steps. */
  function Alone(key: string): seq<Action> {
    [Arrive(key), Receiver] + [Receiver, Receiver, Receiver]
  }

  lemma RunAlone(s: State, key: string)
    ensures Run(s, Alone(key))
            == ReceiverStep(ReceiverStep(ReceiverStep(ReceiverStep(Step(s, Arrive(key))))))
  {
    RunTwo(s, Arrive(key), Receiver);
    var s2 := ReceiverStep(Step(s, Arrive(key)));
    RunTwo(s2, Receiver, Receiver);
    RunOne(ReceiverStep(ReceiverStep(s2)), Receiver);
    assert [Receiver, Receiver, Receiver] == [Receiver, Receiver] + [Receiver];
    RunConcat(s2, [Receiver, Receiver], [Receiver]);
    RunConcat(s, [Arrive(key), Receiver], [Receiver, Receiver, Receiver]);
  }

  /** An unpaired message is cached and armed. */
  lemma StoreAlone(s: State, key: string)
    requires s.rpc.Idle? && key !in s.cache
    ensures var m := Message(|s.arrived|, key);
            Run(s, Alone(key)) == s.(
              cache := s.cache[key := m], queue := s.queue + [Timer(s.now + s.duration, key)],
              received := s.received + 1, arrived := s.arrived + [m], handled := s.handled + 1,
              log := s.log + [Stored(m)],
              armed := s.armed[m.serial := Arming(s.now, s.now + s.duration, s.now, s.swept)])
  {
    RunAlone(s, key);
    var m := Message(|s.arrived|, key);
    var s1 := Step(s, Arrive(key));
    var s2 := ReceiverStep(s1);
    assert s2 == s1.(rpc := Missing(m));
    var s3 := ReceiverStep(s2);
    assert s3 == s2.(rpc := Added(m), cache := s.cache[key := m], handled := s.handled + 1, log := s.log + [Stored(m)]);
    var s4 := ReceiverStep(s3);
    assert s4 == s3.(rpc := Stamped(m, s.now));
  }

  /** A message whose key waits takes the waiting one out, reports the pair and deletes the first timer of that key. */
  lemma PairAlone(s: State, key: string)
    requires s.rpc.Idle? && key in s.cache && s.cache[key].key == key
    ensures var m := Message(|s.arrived|, key);
            Run(s, Alone(key)) == s.(
              cache := s.cache - {key}, queue := WithoutFirst(s.queue, HasId(key)),
              reports := s.reports + [Report(s.cache[key], m)],
              received := s.received + 1, paired := s.paired + 1, arrived := s.arrived + [m], handled := s.handled + 1,
              log := s.log + [Paired(s.cache[key], m, s.swept)])
  {
    RunAlone(s, key);
    var m, first := Message(|s.arrived|, key), s.cache[key];
    var s1 := Step(s, Arrive(key));
    var s2 := ReceiverStep(s1);
    assert s2 == s1.(rpc := Found(m, |s.log|));
    var s3 := ReceiverStep(s2);
    assert s3 == s2.(rpc := Popped(first, m), cache := s.cache - {key}, handled := s.handled + 1,
                     log := s.log + [Paired(first, m, s.swept)]);
    var s4 := ReceiverStep(s3);
    assert s4 == s3.(rpc := Reported(first, m), paired := s.paired + 1, reports := s.reports + [Report(first, m)]);
  }

  /** The way to a state where a message waits while its own timer is in the pool thread's hands. */
  function ToInFlight(duration: nat, key: string): seq<Action> {
    Alone(key) + ([Tick(duration + 1), TimerThread] + [TimerThread])
  }

  /** A whole turn of the clock past the only timer's deadline, and the pool thread takes it off the queue. */
  lemma OneTimerTaken(s: State, own: Timer)
    requires s.tpc.Top? && s.queue == [own] && own.deadline == s.now + s.duration
    ensures var late := s.now + s.duration + 1;
            Run(s, [Tick(s.duration + 1), TimerThread] + [TimerThread])
            == s.(now := late, tpc := InFlight(late, own), queue := [])
  {
    var late := s.now + s.duration + 1;
    RunTwo(s, Tick(s.duration + 1), TimerThread);
    var s2 := Run(s, [Tick(s.duration + 1), TimerThread]);
    assert s2 == s.(now := late, tpc := Sweeping(late));
    OnlyTimerTaken(s2, own, late);
    RunOne(s2, TimerThread);
    RunConcat(s, [Tick(s.duration + 1), TimerThread], [TimerThread]);
  }

  lemma OnlyTimerTaken(s: State, own: Timer, snapshot: int)
    requires s.tpc == Sweeping(snapshot) && s.queue == [own] && own.deadline < snapshot
    ensures TimerStep(s) == s.(tpc := InFlight(snapshot, own), queue := [])
  {
    assert ExpiredBy(snapshot)(own) && FirstMatch([own], ExpiredBy(snapshot)) == 0;
    assert [own][..0] + [own][1..] == [];
  }

  lemma InFlightState(start: int, duration: nat, key: string)
    ensures var s := Run(Init(start, duration), ToInFlight(duration, key));
            var m := Message(0, key);
            s == Init(start, duration).(
              now := start + duration + 1, cache := map[key := m], received := 1, arrived := [m], handled := 1,
              tpc := InFlight(start + duration + 1, Timer(start + duration, key)),
              log := [Stored(m)], armed := map[0 := Arming(start, start + duration, start, start)])
  {
    var s0, own := Init(start, duration), Timer(start + duration, key);
    StoreAlone(s0, key);
    OneTimerTaken(Run(s0, Alone(key)), own);
    RunConcat(s0, Alone(key), [Tick(duration + 1), TimerThread] + [TimerThread]);
  }

  // ---- Runs of big steps ----

  datatype BigStep = Handle(key: string) | PoolTurn | Wait(span: nat)

  predicate AboutToFire(s: State) {
    s.tpc.Sweeping? && FirstMatch(s.queue, ExpiredBy(s.tpc.snapshot)) < |s.queue|
  }

  /** The fine schedule of one big step: taking a timer off the queue and running its handler are not separated. */
  function Expand(s: State, b: BigStep): seq<Action> {
    match b
    case Handle(key) => Alone(key)
    case PoolTurn => if AboutToFire(s) then [TimerThread, TimerThread] else [TimerThread]
    case Wait(span) => [Tick(span)]
  }

  function ExpandAll(s: State, bs: seq<BigStep>): seq<Action>
    decreases |bs|
  {
    if bs == [] then [] else Expand(s, bs[0]) + ExpandAll(Run(s, Expand(s, bs[0])), bs[1..])
  }

  /** A run of big steps: the fine run of its schedule, so that every fine result applies to it. */
  function BigRun(s: State, bs: seq<BigStep>): State {
    Run(s, ExpandAll(s, bs))
  }

  /** Cache and queue agree: one timer for each cached key and none besides, and nothing is lost in the counts. */
  ghost predicate Agree(s: State) {
    && s.rpc.Idle? && !s.tpc.InFlight?
    && OneTimerPerKey(s.queue, s.cache)
    && s.stale == 0
  }

  function Ids(q: seq<Timer>): seq<string> {
    seq(|q|, i requires 0 <= i < |q| => q[i].id)
  }

  /** The ids of the queued timers, with their multiplicity, are the cached keys. */
  ghost predicate OneTimerPerKey(q: seq<Timer>, cache: map<string, Message>) {
    multiset(Ids(q)) == multiset(cache.Keys)
  }

  lemma OneTimerPush(q: seq<Timer>, cache: map<string, Message>, t: Timer, m: Message)
    requires OneTimerPerKey(q, cache) && t.id !in cache
    ensures OneTimerPerKey(q + [t], cache[t.id := m])
  {
    assert Ids(q + [t]) == Ids(q) + [t.id];
    assert cache[t.id := m].Keys == cache.Keys + {t.id};
  }

  /** Taking out the only timer of a key together with the key. */
  lemma OneTimerRemove(q: seq<Timer>, cache: map<string, Message>, at: nat)
    requires OneTimerPerKey(q, cache) && at < |q|
    ensures q[at].id in cache
    ensures OneTimerPerKey(q[..at] + q[at + 1..], cache - {q[at].id})
  {
    var ids, id := Ids(q), q[at].id;
    assert ids == ids[..at] + [id] + ids[at + 1..];
    assert Ids(q[..at] + q[at + 1..]) == ids[..at] + ids[at + 1..];
    assert id in multiset(ids);
    assert (cache - {id}).Keys == cache.Keys - {id};
    assert multiset(cache.Keys - {id}) == multiset(cache.Keys) - multiset{id};
  }

  /** The first timer of a cached key exists. */
  lemma CachedKeyHasTimer(q: seq<Timer>, cache: map<string, Message>, key: string)
    requires OneTimerPerKey(q, cache) && key in cache
    ensures var at := FirstMatch(q, HasId(key)); at < |q| && q[at].id == key
  {
    assert key in multiset(cache.Keys);
    assert key in Ids(q);
    var i :| 0 <= i < |q| && Ids(q)[i] == key;
    assert HasId(key)(q[i]);
    assert HasId(key)(q[FirstMatch(q, HasId(key))]);
  }

  lemma PairKeepsAgreement(s: State, key: string)
    requires Agree(s) && key in s.cache && s.cache[key].key == key
    ensures Agree(Run(s, Alone(key)))
  {
    var at := FirstMatch(s.queue, HasId(key));
    CachedKeyHasTimer(s.queue, s.cache, key);
    OneTimerRemove(s.queue, s.cache, at);
    PairAlone(s, key);
    var s' := Run(s, Alone(key));
    assert s'.queue == s.queue[..at] + s.queue[at + 1..] && s'.cache == s.cache - {key};
  }

  lemma StoreKeepsAgreement(s: State, key: string)
    requires Agree(s) && key !in s.cache
    ensures Agree(Run(s, Alone(key)))
  {
    StoreAlone(s, key);
    OneTimerPush(s.queue, s.cache, Timer(s.now + s.duration, key), Message(|s.arrived|, key));
  }

  lemma FireAlone(s: State)
    requires AboutToFire(s) && s.queue[FirstMatch(s.queue, ExpiredBy(s.tpc.snapshot))].id in s.cache
    ensures var i := FirstMatch(s.queue, ExpiredBy(s.tpc.snapshot));
            var id := s.queue[i].id;
            Run(s, [TimerThread, TimerThread]) == s.(
              queue := s.queue[..i] + s.queue[i + 1..], cache := s.cache - {id}, expired := s.expired + 1,
              evicted := s.evicted + 1, log := s.log + [Evicted(s.cache[id], s.queue[i], s.tpc.snapshot)])
  {
    RunTwo(s, TimerThread, TimerThread);
    var i := FirstMatch(s.queue, ExpiredBy(s.tpc.snapshot));
    var s1 := TimerStep(s);
    assert s1 == s.(tpc := InFlight(s.tpc.snapshot, s.queue[i]), queue := s.queue[..i] + s.queue[i + 1..]);
  }

  /** A turn that fires nothing leaves cache, queue and counters alone. */
  lemma QuietTurn(s: State)
    requires !AboutToFire(s) && !s.tpc.InFlight?
    ensures var s' := TimerStep(s);
            s' == s.(tpc := s'.tpc, swept := s'.swept) && !s'.tpc.InFlight?
  {
  }

  lemma FireKeepsAgreement(s: State)
    requires Agree(s) && AboutToFire(s)
    ensures Agree(Run(s, [TimerThread, TimerThread]))
  {
    var i := FirstMatch(s.queue, ExpiredBy(s.tpc.snapshot));
    var t := s.queue[i];
    OneTimerRemove(s.queue, s.cache, i);
    FireAlone(s);
    var s' := Run(s, [TimerThread, TimerThread]);
    assert s'.queue == s.queue[..i] + s.queue[i + 1..] && s'.cache == s.cache - {t.id};
  }

  lemma TurnKeepsAgreement(s: State)
    requires Agree(s)
    ensures Agree(Run(s, Expand(s, PoolTurn)))
  {
    if AboutToFire(s) {
      FireKeepsAgreement(s);
    } else {
      RunOne(s, TimerThread);
      QuietTurn(s);
    }
  }

  lemma BigStepKeepsAgreement(s: State, b: BigStep)
    requires Agree(s) && Inv(s)
    ensures Agree(Run(s, Expand(s, b)))
  {
    match b
    case Handle(key) =>
      if key in s.cache { PairKeepsAgreement(s, key); } else { StoreKeepsAgreement(s, key); }
    case PoolTurn => TurnKeepsAgreement(s);
    case Wait(span) => RunOne(s, Tick(span));
  }

  lemma {:induction false} BigRunKeepsAgreement(s: State, bs: seq<BigStep>)
    requires Agree(s) && Inv(s)
    ensures Agree(BigRun(s, bs)) && Inv(BigRun(s, bs))
    decreases |bs|
  {
    if bs != [] {
      var sched := Expand(s, bs[0]);
      BigStepKeepsAgreement(s, bs[0]);
      RunKeeps(s, sched);
      BigRunKeepsAgreement(Run(s, sched), bs[1..]);
      RunConcat(s, sched, ExpandAll(Run(s, sched), bs[1..]));
    }
  }

  /** In every run of big steps the queue holds exactly one timer per cached key and none besides, and every
      received message is paired, expired or still waiting. */
  lemma CacheAndTimersAgree(start: int, duration: nat, bs: seq<BigStep>)
    ensures var s := BigRun(Init(start, duration), bs);
            && OneTimerPerKey(s.queue, s.cache)
            && s.received == 2 * s.paired + s.expired + |s.cache|
            && s.rpc.Idle?
  {
    EveryRun(start, duration, []);
    BigRunKeepsAgreement(Init(start, duration), bs);
  }
}
