/** The statistics object: active 32-bit counters that a self-re-arming timer drains into holding registers. */
module AppStatistics {
  import opened Wrappers
  import opened Integers
  import opened BlockingDequeues
  import opened TimerPools

  /** The atomic increment wraps around at 2^32. */
  function Incremented(x: uint32): uint32 {
    if x == TWO32 - 1 then 0 else x + 1
  }

  class AppStats {
    const numberStats: nat
    const active: array<uint32>
    const holding: array<uint32>
    const pool: TimerPool

    ghost predicate Valid() {
      && active != holding
      && active.Length == numberStats && holding.Length == numberStats
    }

    constructor (numberStats: nat, periodMs: nat, clock: int)
      ensures Valid() && this.numberStats == numberStats
      ensures fresh(active) && fresh(holding) && fresh(pool) && fresh(pool.queue)
      ensures forall i :: 0 <= i < numberStats ==> active[i] == 0 && holding[i] == 0
      ensures pool.duration == periodMs * 1_000_000
      ensures pool.queue.queue == [Timer(clock + pool.duration, "")]
    {
      this.numberStats := numberStats;
      active := new uint32[numberStats](_ => 0);
      holding := new uint32[numberStats](_ => 0);
      pool := new TimerPool(periodMs);
      new;
      pool.AddNewTimer("", clock);
    }

    /** Counts one event; an id past the last counter is ignored. */
    method IncrementCounter(counterId: nat)
      requires Valid()
      modifies active
      ensures active[..] == if counterId < numberStats
                            then old(active[..])[counterId := Incremented(old(active[counterId]))]
                            else old(active[..])
    {
      if counterId >= numberStats {
        return;
      }
      active[counterId] := Incremented(active[counterId]);
    }

    method GetActiveCounter(counterId: nat) returns (value: uint32)
      requires Valid()
      ensures value == if counterId < numberStats then active[counterId] else 0
    {
      value := if counterId >= numberStats then 0 else active[counterId];
    }

    method GetHoldingCounter(counterId: nat) returns (value: uint32)
      requires Valid()
      ensures value == if counterId < numberStats then holding[counterId] else 0
    {
      value := if counterId >= numberStats then 0 else holding[counterId];
    }

    /** Every counter moves into its holding register and starts again from zero. */
    method MoveActiveToHold()
      requires Valid()
      modifies active, holding
      ensures holding[..] == old(active[..])
      ensures forall i :: 0 <= i < numberStats ==> active[i] == 0
    {
      for i := 0 to numberStats
        invariant forall j :: 0 <= j < i ==> holding[j] == old(active[j]) && active[j] == 0
        invariant forall j :: i <= j < numberStats ==> active[j] == old(active[j])
      {
        holding[i] := active[i];
        active[i] := 0;
      }
    }

    /** The timer re-arms itself before the counters move. */
    method OnTimerExpiry(id: string, clock: int)
      requires Valid()
      modifies active, holding, pool.queue
      ensures pool.queue.queue == old(pool.queue.queue) + [Timer(clock + pool.duration, "")]
      ensures holding[..] == old(active[..])
      ensures forall i :: 0 <= i < numberStats ==> active[i] == 0
    {
      pool.AddNewTimer("", clock);
      MoveActiveToHold();
    }

    /** One firing of a sweep that has fired `times` timers since the registers held `active0` and `holding0`. */
    method ExpireAgain(id: string, clock: int, ghost active0: seq<uint32>, ghost holding0: seq<uint32>,
                       ghost times: nat)
      requires Valid() && Drained(active0, holding0, times, active[..], holding[..])
      modifies active, holding, pool.queue
      ensures pool.queue.queue == old(pool.queue.queue) + [Timer(clock + pool.duration, "")]
      ensures Drained(active0, holding0, times + 1, active[..], holding[..])
    {
      ghost var a, h := active[..], holding[..];
      OnTimerExpiry(id, clock);
      DrainedAgain(active0, holding0, times, a, h, active[..], holding[..]);
    }

    /** The pool thread's sweep with this client, which re-arms while the loop runs: `clocks` are the readings of the
        clock, none of them before the snapshot. The loop fires the timers that had expired and no re-armed one; the
        first firing moves the counters into the holding registers, and a second one would move zeros. */
    method SweepExpired(snapshot: int, clocks: seq<int>)
      requires Valid() && NoneEarlier(clocks, snapshot)
      requires |Selected(pool.queue.queue, ExpiredBy(snapshot))| <= |clocks|
      modifies active, holding, pool.queue
      ensures var firings := |Selected(old(pool.queue.queue), ExpiredBy(snapshot))|;
              && pool.queue.queue
                 == Rejected(old(pool.queue.queue), ExpiredBy(snapshot)) + Rearmed(clocks[..firings], pool.duration)
              && Drained(old(active[..]), old(holding[..]), firings, active[..], holding[..])
    {
      ghost var q, a0, h0 := pool.queue.queue, active[..], holding[..];
      ghost var plan := Plan(|Selected(q, ExpiredBy(snapshot))|, Rejected(q, ExpiredBy(snapshot)));
      var turn := 0;
      NoneFired(q, snapshot, clocks, pool.duration);
      var next := RetrieveExpired(snapshot, plan, clocks, turn);
      while next.Some?
        invariant turn <= plan.firings
        invariant Looked(next, pool.queue.queue, plan, snapshot, clocks, pool.duration, turn)
        invariant Drained(a0, h0, turn, active[..], holding[..])
        decreases plan.firings - turn
      {
        ExpireAgain(next.value.id, clocks[turn], a0, h0, turn);
        turn := turn + 1;
        next := RetrieveExpired(snapshot, plan, clocks, turn);
      }
    }

    /** One look of a sweep that has fired `turn` timers. */
    method RetrieveExpired(snapshot: int, ghost plan: Plan, ghost clocks: seq<int>, ghost turn: nat)
      returns (next: Option<Timer>)
      requires NoneEarlier(clocks, snapshot) && plan.firings <= |clocks|
      requires LeftAfter(pool.queue.queue, plan, snapshot, clocks, pool.duration, turn)
      modifies pool.queue
      ensures Looked(next, pool.queue.queue, plan, snapshot, clocks, pool.duration, turn)
    {
      ghost var q := pool.queue.queue;
      next := pool.queue.RetrieveOneIf(ExpiredBy(snapshot));
      if next.Some? {
        OneMoreFired(q, plan, snapshot, clocks, pool.duration, turn);
      } else {
        AllFired(q, plan, snapshot, clocks, pool.duration, turn);
      }
    }
  }

  /** What a sweep will do to the queue it starts with: how many timers it fires and which ones it keeps. */
  datatype Plan = Plan(firings: nat, kept: seq<Timer>)

  predicate NoneEarlier(clocks: seq<int>, snapshot: int) {
    forall i :: 0 <= i < |clocks| ==> clocks[i] >= snapshot
  }

  /** The timers armed at these clock readings. */
  function Rearmed(clocks: seq<int>, duration: nat): seq<Timer> {
    seq(|clocks|, i requires 0 <= i < |clocks| => Timer(clocks[i] + duration, ""))
  }

  /** `q` is what a re-arming sweep with this plan has left after `n` firings. */
  ghost predicate LeftAfter(q: seq<Timer>, plan: Plan, snapshot: int, clocks: seq<int>, duration: nat, n: nat) {
    && n <= |clocks|
    && n + |Selected(q, ExpiredBy(snapshot))| == plan.firings
    && Rejected(q, ExpiredBy(snapshot)) == plan.kept + Rearmed(clocks[..n], duration)
  }

  /** What a look by a sweep with this plan has found after `n` firings: the handler of `next` is about to re-arm. */
  ghost predicate Looked(next: Option<Timer>, q: seq<Timer>, plan: Plan, snapshot: int, clocks: seq<int>, duration: nat,
                         n: nat)
  {
    if next.Some? then
      && n < plan.firings && n < |clocks|
      && LeftAfter(q + [Timer(clocks[n] + duration, "")], plan, snapshot, clocks, duration, n + 1)
    else n == plan.firings <= |clocks| && q == plan.kept + Rearmed(clocks[..n], duration)
  }

  lemma NoneFired(q: seq<Timer>, snapshot: int, clocks: seq<int>, duration: nat)
    ensures var plan := Plan(|Selected(q, ExpiredBy(snapshot))|, Rejected(q, ExpiredBy(snapshot)));
            LeftAfter(q, plan, snapshot, clocks, duration, 0)
  {
    assert Rearmed(clocks[..0], duration) == [];
  }

  lemma RearmedNext(clocks: seq<int>, duration: nat, n: nat)
    requires n < |clocks|
    ensures Rearmed(clocks[..n + 1], duration) == Rearmed(clocks[..n], duration) + [Timer(clocks[n] + duration, "")]
  {
  }

  /** One firing, seen on the queue alone. */
  lemma OneExchanged(q: seq<Timer>, snapshot: int, push: Timer)
    requires push.deadline >= snapshot && FirstMatch(q, ExpiredBy(snapshot)) < |q|
    ensures var next := WithoutFirst(q, ExpiredBy(snapshot)) + [push];
            && |Selected(q, ExpiredBy(snapshot))| == 1 + |Selected(next, ExpiredBy(snapshot))|
            && Rejected(next, ExpiredBy(snapshot)) == Rejected(q, ExpiredBy(snapshot)) + [push]
  {
    RemovalSplitsSelection(q, ExpiredBy(snapshot));
    LateTimersAreKept(WithoutFirst(q, ExpiredBy(snapshot)), [push], snapshot);
  }

  lemma OneMoreFired(q: seq<Timer>, plan: Plan, snapshot: int, clocks: seq<int>, duration: nat, n: nat)
    requires LeftAfter(q, plan, snapshot, clocks, duration, n) && NoneEarlier(clocks, snapshot)
    requires plan.firings <= |clocks| && FirstMatch(q, ExpiredBy(snapshot)) < |q|
    ensures n < plan.firings
    ensures var next := WithoutFirst(q, ExpiredBy(snapshot)) + [Timer(clocks[n] + duration, "")];
            LeftAfter(next, plan, snapshot, clocks, duration, n + 1)
  {
    RemovalSplitsSelection(q, ExpiredBy(snapshot));
    var push := Timer(clocks[n] + duration, "");
    OneExchanged(q, snapshot, push);
    RearmedNext(clocks, duration, n);
    Associative(plan.kept, Rearmed(clocks[..n], duration), [push]);
  }

  lemma AllFired(q: seq<Timer>, plan: Plan, snapshot: int, clocks: seq<int>, duration: nat, n: nat)
    requires LeftAfter(q, plan, snapshot, clocks, duration, n) && FirstMatch(q, ExpiredBy(snapshot)) == |q|
    ensures n == plan.firings
    ensures WithoutFirst(q, ExpiredBy(snapshot)) == plan.kept + Rearmed(clocks[..n], duration)
  {
    RemovalSplitsSelection(q, ExpiredBy(snapshot));
  }

  /** The registers after a number of drains that nothing else counted in between. */
  ghost predicate Drained(active0: seq<uint32>, holding0: seq<uint32>, times: nat,
                          active: seq<uint32>, holding: seq<uint32>)
  {
    && |active| == |active0| && |holding| == |holding0|
    && if times == 0 then active == active0 && holding == holding0
       else
         && (forall i :: 0 <= i < |active| ==> active[i] == 0)
         && (if times == 1 then holding == active0 else forall i :: 0 <= i < |holding| ==> holding[i] == 0)
  }

  lemma DrainedAgain(active0: seq<uint32>, holding0: seq<uint32>, times: nat,
                     a: seq<uint32>, h: seq<uint32>, a': seq<uint32>, h': seq<uint32>)
    requires Drained(active0, holding0, times, a, h)
    requires h' == a && |a'| == |a| == |h| && forall i :: 0 <= i < |a'| ==> a'[i] == 0
    ensures Drained(active0, holding0, times + 1, a', h')
  {
  }
}
