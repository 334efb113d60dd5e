/** Seen through one key, the engine is a two-state toggle: a message either waits or completes a pair, and an
    expiry empties the waiting place. The refinement holds in every fine-grained interleaving. */
module PairingRefinement {
  import opened Wrappers
  import opened PairingMachine
  import opened PairingInvariants

  /** What the toggle is fed: the messages of a key and the expiries of timers with that key. */
  datatype Input = Came(msg: Message) | Expired(id: string)

  function InputOf(o: Observation): Input {
    match o
    case Stored(m) => Came(m)
    case Paired(_, m, _) => Came(m)
    case Evicted(first, _, _) => Expired(first.key)
    case Stale(id) => Expired(id)
  }

  function KeyOf(i: Input): string {
    if i.Came? then i.msg.key else i.id
  }

  /** The inputs of one key, in the order they took effect. */
  function InputsFor(log: seq<Observation>, key: string): seq<Input> {
    if log == [] then []
    else
      var i := InputOf(log[|log| - 1]);
      var before := InputsFor(log[..|log| - 1], key);
      if KeyOf(i) == key then before + [i] else before
  }

  datatype Toggle = Toggle(waiting: Option<Message>, reports: seq<Report>)

  function Feed(t: Toggle, i: Input): Toggle {
    match i
    case Came(m) =>
      if t.waiting.None? then Toggle(Some(m), t.reports)
      else Toggle(None, t.reports + [Report(t.waiting.value, m)])
    case Expired(_) => Toggle(None, t.reports)
  }

  /** The toggle after a whole input sequence. */
  function FeedAll(inputs: seq<Input>): Toggle {
    if inputs == [] then Toggle(None, []) else Feed(FeedAll(inputs[..|inputs| - 1]), inputs[|inputs| - 1])
  }

  function ReportsFor(reports: seq<Report>, key: string): seq<Report> {
    if reports == [] then []
    else
      var r := reports[|reports| - 1];
      var before := ReportsFor(reports[..|reports| - 1], key);
      if r.first.key == key then before + [r] else before
  }

  function MessagesFor(ms: seq<Message>, key: string): seq<Message> {
    if ms == [] then []
    else
      var m := ms[|ms| - 1];
      var before := MessagesFor(ms[..|ms| - 1], key);
      if m.key == key then before + [m] else before
  }

  /** The reports of a key, with the one on its way while the receiver stands between the pop and the reporter. */
  function ReportsDue(s: State, key: string): seq<Report> {
    var done := ReportsFor(s.reports, key);
    if s.rpc.Popped? && s.rpc.msg.key == key then done + [Report(s.rpc.first, s.rpc.msg)] else done
  }

  /** The engine seen through one key. */
  function View(s: State, key: string): Toggle {
    Toggle(if key in s.cache then Some(s.cache[key]) else None, ReportsDue(s, key))
  }

  /** The toggle after the log's inputs of one key. */
  function Toggled(log: seq<Observation>, key: string): Toggle {
    FeedAll(InputsFor(log, key))
  }

  lemma LogAppend(log: seq<Observation>, o: Observation, key: string)
    ensures var i := InputOf(o);
            Toggled(log + [o], key) == (if KeyOf(i) == key then Feed(Toggled(log, key), i) else Toggled(log, key))
  {
    assert (log + [o])[..|log|] == log;
    var i, inputs := InputOf(o), InputsFor(log, key);
    assert (inputs + [i])[..|inputs|] == inputs;
  }

  lemma ReportsAppend(reports: seq<Report>, r: Report, key: string)
    ensures ReportsFor(reports + [r], key)
            == if r.first.key == key then ReportsFor(reports, key) + [r] else ReportsFor(reports, key)
  {
    assert (reports + [r])[..|reports|] == reports;
  }

  lemma ReceiverFeeds(s: State, key: string)
    requires InOrder(s) && KeyKnown(s)
    ensures var news := Noted(s, Receiver);
            View(ReceiverStep(s), key)
            == if news != [] && KeyOf(InputOf(news[0])) == key then Feed(View(s, key), InputOf(news[0]))
               else View(s, key)
  {
    if s.rpc.Popped? {
      ReportsAppend(s.reports, Report(s.rpc.first, s.rpc.msg), key);
    }
  }

  lemma TimerFeeds(s: State, key: string)
    requires InOrder(s)
    ensures var news := Noted(s, TimerThread);
            View(TimerStep(s), key)
            == if news != [] && KeyOf(InputOf(news[0])) == key then Feed(View(s, key), InputOf(news[0]))
               else View(s, key)
  {
  }

  lemma RefinesKept(s: State, a: Action, key: string)
    requires InOrder(s) && KeyKnown(s) && View(s, key) == Toggled(s.log, key)
    ensures View(Step(s, a), key) == Toggled(Step(s, a).log, key)
  {
    StepLog(s, a);
    match a {
      case Receiver => ReceiverFeeds(s, key);
      case TimerThread => TimerFeeds(s, key);
      case _ =>
    }
    var news := Noted(s, a);
    if news == [] {
      assert s.log + news == s.log;
    } else {
      assert news == [news[0]];
      LogAppend(s.log, news[0], key);
    }
  }

  lemma {:induction false} RunRefines(s: State, schedule: seq<Action>, key: string)
    requires Inv(s) && View(s, key) == Toggled(s.log, key)
    ensures View(Run(s, schedule), key) == Toggled(Run(s, schedule).log, key)
    decreases |schedule|
  {
    if schedule != [] {
      StepKeeps(s, schedule[0]);
      RefinesKept(s, schedule[0], key);
      RunRefines(Step(s, schedule[0]), schedule[1..], key);
    }
  }

  /** In every interleaving the reports of a key are those of the toggle fed only that key's messages and expiries. */
  lemma ReportsAreToggled(start: int, duration: nat, schedule: seq<Action>, key: string)
    ensures var s := Run(Init(start, duration), schedule);
            FeedAll(InputsFor(s.log, key))
            == Toggle(if key in s.cache then Some(s.cache[key]) else None, ReportsDue(s, key))
  {
    RunRefines(Init(start, duration), schedule, key);
  }

  // ---- The history against the arrivals and the counters ----

  /** The messages that took effect, in that order. */
  function MessagesOf(log: seq<Observation>): seq<Message> {
    if log == [] then []
    else
      var o := log[|log| - 1];
      var before := MessagesOf(log[..|log| - 1]);
      if o.Stored? || o.Paired? then before + [o.msg] else before
  }

  function EvictedIn(log: seq<Observation>): nat {
    if log == [] then 0 else EvictedIn(log[..|log| - 1]) + (if log[|log| - 1].Evicted? then 1 else 0)
  }

  function StaleIn(log: seq<Observation>): nat {
    if log == [] then 0 else StaleIn(log[..|log| - 1]) + (if log[|log| - 1].Stale? then 1 else 0)
  }

  /** The history counters count what the log shows, and messages take effect in arrival order. */
  ghost predicate Tallied(s: State) {
    && s.handled <= |s.arrived|
    && MessagesOf(s.log) == s.arrived[..s.handled]
    && EvictedIn(s.log) == s.evicted
    && StaleIn(s.log) == s.stale
  }

  lemma TallyAppend(log: seq<Observation>, o: Observation)
    ensures MessagesOf(log + [o]) == if o.Stored? || o.Paired? then MessagesOf(log) + [o.msg] else MessagesOf(log)
    ensures EvictedIn(log + [o]) == EvictedIn(log) + (if o.Evicted? then 1 else 0)
    ensures StaleIn(log + [o]) == StaleIn(log) + (if o.Stale? then 1 else 0)
  {
    assert (log + [o])[..|log|] == log;
  }

  /** The counters move exactly as the history entry says. */
  lemma TallyStep(s: State, a: Action)
    requires InOrder(s) && KeyKnown(s)
    ensures var s', news := Step(s, a), Noted(s, a);
            && s.handled <= |s.arrived| <= |s'.arrived| && s'.arrived[..|s.arrived|] == s.arrived
            && if news == [] then s'.handled == s.handled && s'.evicted == s.evicted && s'.stale == s.stale
               else
                 var o := news[0];
                 && s'.evicted == s.evicted + (if o.Evicted? then 1 else 0)
                 && s'.stale == s.stale + (if o.Stale? then 1 else 0)
                 && if o.Stored? || o.Paired? then
                      s'.handled == s.handled + 1 && s.handled < |s.arrived| && s.arrived[s.handled] == o.msg
                    else s'.handled == s.handled
  {
  }

  /** One more history entry, with the counters moved as it says. */
  lemma TalliedNoted(s: State, s': State, o: Observation)
    requires Tallied(s) && s'.log == s.log + [o]
    requires s'.evicted == s.evicted + (if o.Evicted? then 1 else 0)
    requires s'.stale == s.stale + (if o.Stale? then 1 else 0)
    requires s'.handled == s.handled + (if o.Stored? || o.Paired? then 1 else 0) <= |s'.arrived|
    requires s.arrived <= s'.arrived && (o.Stored? || o.Paired? ==> s'.arrived[s.handled] == o.msg)
    ensures Tallied(s')
  {
  }

  lemma TalliedKept(s: State, a: Action)
    requires InOrder(s) && KeyKnown(s) && Tallied(s)
    ensures Tallied(Step(s, a))
  {
    StepLog(s, a);
    TallyStep(s, a);
    var s', news := Step(s, a), Noted(s, a);
    if news != [] {
      TalliedNoted(s, s', news[0]);
    } else {
      assert s'.log == s.log;
      assert s'.arrived[..s.handled] == s.arrived[..s.handled];
    }
  }

  lemma {:induction false} RunTallied(s: State, schedule: seq<Action>)
    requires Inv(s) && Tallied(s)
    ensures Tallied(Run(s, schedule))
    decreases |schedule|
  {
    if schedule != [] {
      StepKeeps(s, schedule[0]);
      TalliedKept(s, schedule[0]);
      RunTallied(Step(s, schedule[0]), schedule[1..]);
    }
  }

  // ---- Without evictions: consecutive messages are paired ----

  /** No waiting message of the key was evicted; stale timers of the key may have fired. */
  ghost predicate Unexpired(log: seq<Observation>, key: string) {
    forall i :: 0 <= i < |log| && log[i].Evicted? ==> log[i].first.key != key
  }

  /** Consecutive messages form the reports: the first with the second, the third with the fourth, and so on. */
  ghost predicate ConsecutivePairs(ms: seq<Message>, reports: seq<Report>) {
    && |reports| == |ms| / 2
    && forall j :: 0 <= j < |reports| ==> reports[j] == Report(ms[2 * j], ms[2 * j + 1])
  }

  /** The toggle has paired the messages consecutively, and an odd last one waits. */
  ghost predicate InStep(ms: seq<Message>, t: Toggle) {
    && ConsecutivePairs(ms, t.reports)
    && t.waiting == if |ms| % 2 == 1 then Some(ms[|ms| - 1]) else None
  }

  lemma InStepFed(ms: seq<Message>, t: Toggle, m: Message)
    requires InStep(ms, t)
    ensures InStep(ms + [m], Feed(t, Came(m)))
  {
  }

  lemma MessagesAppend(ms: seq<Message>, m: Message, key: string)
    ensures MessagesFor(ms + [m], key) == if m.key == key then MessagesFor(ms, key) + [m] else MessagesFor(ms, key)
  {
    assert (ms + [m])[..|ms|] == ms;
  }

  /** The messages of the key that took effect. */
  function Effective(log: seq<Observation>, key: string): seq<Message> {
    MessagesFor(MessagesOf(log), key)
  }

  /** One more history entry that evicts nothing of the key; a stale timer finds nobody waiting. */
  lemma InStepNoted(log: seq<Observation>, o: Observation, key: string)
    requires InStep(Effective(log, key), Toggled(log, key))
    requires o.Evicted? ==> o.first.key != key
    requires o == Stale(key) ==> Toggled(log, key).waiting.None?
    ensures InStep(Effective(log + [o], key), Toggled(log + [o], key))
  {
    LogAppend(log, o, key);
    TallyAppend(log, o);
    if o.Stored? || o.Paired? {
      MessagesAppend(MessagesOf(log), o.msg, key);
      InStepFed(Effective(log, key), Toggled(log, key), o.msg);
    }
  }

  /** Unless a waiting message of the key was evicted, its messages were paired consecutively. */
  ghost predicate InStepUnlessEvicted(log: seq<Observation>, key: string) {
    Unexpired(log, key) ==> InStep(Effective(log, key), Toggled(log, key))
  }

  lemma InStepAppended(log: seq<Observation>, o: Observation, key: string)
    requires InStepUnlessEvicted(log, key)
    requires o == Stale(key) ==> Toggled(log, key).waiting.None?
    ensures InStepUnlessEvicted(log + [o], key)
  {
    var all := log + [o];
    if Unexpired(all, key) {
      assert forall i :: 0 <= i < |log| ==> log[i] == all[i];
      assert all[|log|] == o;
      InStepNoted(log, o, key);
    }
  }

  lemma StaleFindsNobody(s: State, a: Action, key: string)
    requires View(s, key) == Toggled(s.log, key)
    ensures Noted(s, a) == [Stale(key)] ==> Toggled(s.log, key).waiting.None?
  {
  }

  lemma InStepKept(s: State, a: Action, key: string)
    requires View(s, key) == Toggled(s.log, key) && InStepUnlessEvicted(s.log, key)
    ensures InStepUnlessEvicted(Step(s, a).log, key)
  {
    StepLog(s, a);
    StaleFindsNobody(s, a, key);
    var log, news := s.log, Noted(s, a);
    if news == [] {
      assert log + news == log;
    } else {
      var o := news[0];
      assert news == [o];
      InStepAppended(log, o, key);
    }
  }

  lemma {:induction false} RunInStep(s: State, schedule: seq<Action>, key: string)
    requires Inv(s) && View(s, key) == Toggled(s.log, key) && InStepUnlessEvicted(s.log, key)
    ensures InStepUnlessEvicted(Run(s, schedule).log, key)
    decreases |schedule|
  {
    if schedule != [] {
      StepKeeps(s, schedule[0]);
      RefinesKept(s, schedule[0], key);
      InStepKept(s, schedule[0], key);
      RunInStep(Step(s, schedule[0]), schedule[1..], key);
    }
  }

  /** Between two messages, what took effect is what arrived. */
  lemma IdleInStep(s: State, key: string)
    requires s.rpc.Idle? && InOrder(s) && Tallied(s)
    requires View(s, key) == Toggled(s.log, key) && InStep(Effective(s.log, key), Toggled(s.log, key))
    ensures ConsecutivePairs(MessagesFor(s.arrived, key), ReportsFor(s.reports, key))
  {
    assert s.arrived[..s.handled] == s.arrived;
  }

  lemma RunIsInStep(start: int, duration: nat, schedule: seq<Action>, key: string)
    ensures var s := Run(Init(start, duration), schedule);
            View(s, key) == Toggled(s.log, key) && InStepUnlessEvicted(s.log, key)
  {
    var s0 := Init(start, duration);
    assert View(s0, key) == Toggled(s0.log, key) && InStepUnlessEvicted(s0.log, key);
    RunRefines(s0, schedule, key);
    RunInStep(s0, schedule, key);
  }

  lemma RunIsTallied(start: int, duration: nat, schedule: seq<Action>)
    ensures var s := Run(Init(start, duration), schedule); InOrder(s) && Tallied(s)
  {
    EveryRun(start, duration, schedule);
    RunTallied(Init(start, duration), schedule);
  }

  /** While no waiting message of a key is evicted, the (2j-1)-th and 2j-th message of that key are reported together,
      in that order, and nothing else is reported for it. */
  lemma UnexpiredKeyPairsInOrder(start: int, duration: nat, schedule: seq<Action>, key: string)
    requires var s := Run(Init(start, duration), schedule);
             s.rpc.Idle? && Unexpired(s.log, key)
    ensures var s := Run(Init(start, duration), schedule);
            ConsecutivePairs(MessagesFor(s.arrived, key), ReportsFor(s.reports, key))
  {
    RunIsTallied(start, duration, schedule);
    RunIsInStep(start, duration, schedule, key);
    IdleInStep(Run(Init(start, duration), schedule), key);
  }
}
