/** The timer pool: a queue of deadlines, the sweep that fires the expired ones, and the sleep between sweeps. */
module TimerPools {
  import opened BlockingDequeues

  /** An armed timer; time is counted in nanoseconds of the steady clock. */
  datatype Timer = Timer(deadline: int, id: string)

  const NS_PER_MS: int := 1_000_000

  function HasId(id: string): Timer -> bool {
    (t: Timer) => t.id == id
  }

  /** The test of one sweep: strictly past its deadline at the sweep's snapshot. */
  function ExpiredBy(snapshot: int): Timer -> bool {
    (t: Timer) => snapshot > t.deadline
  }

  ghost predicate Sorted(q: seq<Timer>) {
    forall i, j :: 0 <= i < j < |q| ==> q[i].deadline <= q[j].deadline
  }

  ghost predicate NoneBefore(q: seq<Timer>, bound: int) {
    forall t <- q :: t.deadline >= bound
  }

  lemma RemovalKeepsSorted(q: seq<Timer>, pred: Timer -> bool)
    requires Sorted(q)
    ensures Sorted(WithoutFirst(q, pred))
  {
  }

  // ---- Sleeping until the front deadline ----

  /** Conversion of a span to whole milliseconds: it truncates towards zero. */
  function TruncatedMs(span: int): int {
    if span >= 0 then span / NS_PER_MS else -((-span) / NS_PER_MS)
  }

  /** What is cut off is less than a millisecond, and the rest is not longer than the span. */
  lemma TruncatesTowardsZero(span: int)
    ensures var ms := TruncatedMs(span) * 1_000_000;
            if span >= 0 then 0 <= ms <= span < ms + 1_000_000 else ms - 1_000_000 < span <= ms <= 0
  {
  }

  /** When a sleep that starts at `now` for the truncated distance to `front` is over; a negative sleep returns at
      once. */
  function WakeTime(now: int, front: int): int {
    var ms := TruncatedMs(front - now);
    if ms > 0 then now + ms * NS_PER_MS else now
  }

  /** The sleep ends at or before a deadline that is still ahead, and by less than a millisecond before it. */
  lemma WakeBounds(now: int, front: int)
    ensures now <= WakeTime(now, front)
    ensures front >= now ==> WakeTime(now, front) <= front < WakeTime(now, front) + 1_000_000
    ensures (WakeTime(now, front) - now) % 1_000_000 == 0
    ensures front < now ==> WakeTime(now, front) == now
  {
  }

  // ---- The sweep ----

  /** How many timers a sweep with this snapshot still has to fire. */
  function CountBelow(q: seq<Timer>, snapshot: int): nat {
    if q == [] then 0
    else (if snapshot > q[0].deadline then 1 else 0) + CountBelow(q[1..], snapshot)
  }

  lemma {:induction false} CountBelowConcat(a: seq<Timer>, b: seq<Timer>, snapshot: int)
    ensures CountBelow(a + b, snapshot) == CountBelow(a, snapshot) + CountBelow(b, snapshot)
  {
    if a == [] {
      assert a + b == b;
    } else {
      assert (a + b)[1..] == a[1..] + b;
      CountBelowConcat(a[1..], b, snapshot);
    }
  }

  /** Taking one element out takes exactly its own share out of the count. */
  lemma CountBelowRemoval(q: seq<Timer>, pred: Timer -> bool, snapshot: int)
    ensures var i := FirstMatch(q, pred);
            CountBelow(q, snapshot) == CountBelow(WithoutFirst(q, pred), snapshot)
                                       + (if i < |q| && snapshot > q[i].deadline then 1 else 0)
  {
    var i := FirstMatch(q, pred);
    if i < |q| {
      assert q == q[..i] + ([q[i]] + q[i + 1..]);
      CountBelowConcat(q[..i], [q[i]] + q[i + 1..], snapshot);
      CountBelowConcat([q[i]], q[i + 1..], snapshot);
      CountBelowConcat(q[..i], q[i + 1..], snapshot);
    }
  }

  /** What the expiry handler or another thread may do to the queue between two removals of one sweep. */
  datatype QueueOp = Push(timer: Timer) | Delete(id: string)

  function Apply(q: seq<Timer>, op: QueueOp): seq<Timer> {
    match op
    case Push(t) => q + [t]
    case Delete(id) => WithoutFirst(q, HasId(id))
  }

  function ApplyAll(q: seq<Timer>, ops: seq<QueueOp>): seq<Timer>
    decreases |ops|
  {
    if ops == [] then q else ApplyAll(Apply(q, ops[0]), ops[1..])
  }

  /** No push is overdue at the snapshot. That is so when the clock was read after the snapshot, as by an expiry handler
      that re-arms; another thread may have read it before. */
  ghost predicate ArmedAfter(ops: seq<QueueOp>, snapshot: int) {
    forall i :: 0 <= i < |ops| && ops[i].Push? ==> ops[i].timer.deadline >= snapshot
  }

  /** How many pushes are overdue at the snapshot. */
  function LatePushes(ops: seq<QueueOp>, snapshot: int): nat {
    if ops == [] then 0
    else (if ops[0].Push? && ops[0].timer.deadline < snapshot then 1 else 0) + LatePushes(ops[1..], snapshot)
  }

  lemma {:induction false} NoLatePushes(ops: seq<QueueOp>, snapshot: int)
    ensures ArmedAfter(ops, snapshot) <==> LatePushes(ops, snapshot) == 0
  {
    if ops != [] {
      NoLatePushes(ops[1..], snapshot);
      assert ops == [ops[0]] + ops[1..];
    }
  }

  lemma CountBelowApply(q: seq<Timer>, op: QueueOp, snapshot: int)
    ensures CountBelow(Apply(q, op), snapshot) <= CountBelow(q, snapshot) + LatePushes([op], snapshot)
  {
    match op
    case Push(t) =>
      CountBelowConcat(q, [t], snapshot);
      assert [t][1..] == [];
    case Delete(id) =>
      CountBelowRemoval(q, HasId(id), snapshot);
  }

  /** Whatever happens to the queue, only late pushes add to what the sweep has to fire. */
  lemma {:induction false} OnlyLatePushesAddWork(q: seq<Timer>, ops: seq<QueueOp>, snapshot: int)
    ensures CountBelow(ApplyAll(q, ops), snapshot) <= CountBelow(q, snapshot) + LatePushes(ops, snapshot)
    decreases |ops|
  {
    if ops != [] {
      CountBelowApply(q, ops[0], snapshot);
      assert [ops[0]][1..] == [];
      OnlyLatePushesAddWork(Apply(q, ops[0]), ops[1..], snapshot);
    }
  }

  datatype SweepResult = SweepResult(fired: seq<Timer>, rest: seq<Timer>)

  /** From turn `calm` on no late push arrives: each thread that adds timers has read the clock at most once too
      early. */
  ghost predicate CalmFrom(env: nat -> seq<QueueOp>, snapshot: int, calm: nat) {
    forall n: nat :: n >= calm ==> ArmedAfter(env(n), snapshot)
  }

  /** The queue at the next look: the first expired timer is gone and `ops` have happened. */
  function NextLook(q: seq<Timer>, snapshot: int, ops: seq<QueueOp>): seq<Timer> {
    ApplyAll(WithoutFirst(q, ExpiredBy(snapshot)), ops)
  }

  /** One firing is one timer less to fire, late pushes not counted. */
  lemma NextLookBelow(q: seq<Timer>, snapshot: int, ops: seq<QueueOp>)
    requires FirstMatch(q, ExpiredBy(snapshot)) < |q|
    ensures q[FirstMatch(q, ExpiredBy(snapshot))].deadline < snapshot
    ensures CountBelow(NextLook(q, snapshot, ops), snapshot) < CountBelow(q, snapshot) + LatePushes(ops, snapshot)
    ensures ArmedAfter(ops, snapshot) ==> CountBelow(NextLook(q, snapshot, ops), snapshot) < CountBelow(q, snapshot)
  {
    assert ExpiredBy(snapshot)(q[FirstMatch(q, ExpiredBy(snapshot))]);
    CountBelowRemoval(q, ExpiredBy(snapshot), snapshot);
    OnlyLatePushesAddWork(WithoutFirst(q, ExpiredBy(snapshot)), ops, snapshot);
    NoLatePushes(ops, snapshot);
  }

  /** The sweep loop: remove the first expired timer, run its handler, and look again with the same snapshot.
      `env(n)` is all that happened to the queue between the n-th removal and the next look. */
  ghost function Sweep(q: seq<Timer>, snapshot: int, env: nat -> seq<QueueOp>, turn: nat, calm: nat): SweepResult
    requires CalmFrom(env, snapshot, calm)
    decreases if turn < calm then calm - turn else 0, CountBelow(q, snapshot)
  {
    var i := FirstMatch(q, ExpiredBy(snapshot));
    if i == |q| then SweepResult([], q)
    else
      NextLookBelow(q, snapshot, env(turn));
      var r := Sweep(NextLook(q, snapshot, env(turn)), snapshot, env, turn + 1, calm);
      SweepResult([q[i]] + r.fired, r.rest)
  }

  /** All late pushes during turns `turn` to `turn + count - 1`. */
  ghost function LateDuring(env: nat -> seq<QueueOp>, turn: nat, count: nat, snapshot: int): nat
    decreases count
  {
    if count == 0 then 0 else LatePushes(env(turn), snapshot) + LateDuring(env, turn + 1, count - 1, snapshot)
  }

  /** Only expired timers were fired, none is left, and there were no more of them than the sweep found plus the late
      pushes made meanwhile. */
  ghost predicate FiredExpired(r: SweepResult, q: seq<Timer>, snapshot: int, env: nat -> seq<QueueOp>, turn: nat) {
    && |r.fired| <= CountBelow(q, snapshot) + LateDuring(env, turn, |r.fired|, snapshot)
    && (forall t <- r.fired :: t.deadline < snapshot)
    && NoneBefore(r.rest, snapshot)
  }

  lemma FiredExpiredBefore(r: SweepResult, q: seq<Timer>, snapshot: int, env: nat -> seq<QueueOp>, turn: nat)
    requires FirstMatch(q, ExpiredBy(snapshot)) < |q|
    requires FiredExpired(r, NextLook(q, snapshot, env(turn)), snapshot, env, turn + 1)
    ensures FiredExpired(SweepResult([q[FirstMatch(q, ExpiredBy(snapshot))]] + r.fired, r.rest), q, snapshot, env, turn)
  {
    NextLookBelow(q, snapshot, env(turn));
  }

  lemma NothingExpired(q: seq<Timer>, snapshot: int)
    requires FirstMatch(q, ExpiredBy(snapshot)) == |q|
    ensures NoneBefore(q, snapshot)
  {
    assert forall t <- q :: !ExpiredBy(snapshot)(t);
  }

  /** The sweep ends, whatever another thread pushes and deletes meanwhile, as soon as no more late pushes come. */
  lemma {:induction false} SweepFiresExpired(q: seq<Timer>, snapshot: int, env: nat -> seq<QueueOp>, turn: nat,
                                             calm: nat)
    requires CalmFrom(env, snapshot, calm)
    ensures FiredExpired(Sweep(q, snapshot, env, turn, calm), q, snapshot, env, turn)
    decreases if turn < calm then calm - turn else 0, CountBelow(q, snapshot)
  {
    if FirstMatch(q, ExpiredBy(snapshot)) == |q| {
      NothingExpired(q, snapshot);
    } else {
      var next := NextLook(q, snapshot, env(turn));
      NextLookBelow(q, snapshot, env(turn));
      SweepFiresExpired(next, snapshot, env, turn + 1, calm);
      FiredExpiredBefore(Sweep(next, snapshot, env, turn + 1, calm), q, snapshot, env, turn);
    }
  }

  ghost predicate OnlyPushes(ops: seq<QueueOp>) {
    forall i :: 0 <= i < |ops| ==> ops[i].Push?
  }

  /** The timers pushed by `ops`, in order. */
  function Pushed(ops: seq<QueueOp>): seq<Timer> {
    if ops == [] then []
    else (if ops[0].Push? then [ops[0].timer] else []) + Pushed(ops[1..])
  }

  lemma {:induction false} PushesAppend(q: seq<Timer>, ops: seq<QueueOp>)
    requires OnlyPushes(ops)
    ensures ApplyAll(q, ops) == q + Pushed(ops)
    decreases |ops|
  {
    if ops == [] {
      assert q + [] == q;
    } else {
      var t := ops[0].timer;
      PushesAppend(q + [t], ops[1..]);
      assert Apply(q, ops[0]) == q + [t];
      assert q + [t] + Pushed(ops[1..]) == q + ([t] + Pushed(ops[1..]));
    }
  }

  /** All timers armed during turns `turn` to `turn + count - 1`, in the order they were armed. */
  ghost function PushedDuring(env: nat -> seq<QueueOp>, turn: nat, count: nat): seq<Timer>
    decreases count
  {
    if count == 0 then [] else Pushed(env(turn)) + PushedDuring(env, turn + 1, count - 1)
  }

  lemma {:induction false} NothingExpiredIn(late: seq<Timer>, snapshot: int)
    requires NoneBefore(late, snapshot)
    ensures Selected(late, ExpiredBy(snapshot)) == []
    ensures Rejected(late, ExpiredBy(snapshot)) == late
  {
    if late != [] {
      assert late[0] in late;
      assert forall t <- late[1..] :: t in late;
      NothingExpiredIn(late[1..], snapshot);
      assert late == [late[0]] + late[1..];
    }
  }

  lemma {:induction false} SelectionConcat(a: seq<Timer>, b: seq<Timer>, pred: Timer -> bool)
    ensures Selected(a + b, pred) == Selected(a, pred) + Selected(b, pred)
    ensures Rejected(a + b, pred) == Rejected(a, pred) + Rejected(b, pred)
  {
    if a == [] {
      assert a + b == b;
    } else {
      var x, tail := a[0], a[1..];
      assert (a + b)[0] == x && (a + b)[1..] == tail + b;
      SelectionConcat(tail, b, pred);
      Associative(if pred(x) then [x] else [], Selected(tail, pred), Selected(b, pred));
      Associative(if pred(x) then [] else [x], Rejected(tail, pred), Rejected(b, pred));
    }
  }

  lemma LateTimersAreKept(q: seq<Timer>, late: seq<Timer>, snapshot: int)
    requires NoneBefore(late, snapshot)
    ensures Selected(q + late, ExpiredBy(snapshot)) == Selected(q, ExpiredBy(snapshot))
    ensures Rejected(q + late, ExpiredBy(snapshot)) == Rejected(q, ExpiredBy(snapshot)) + late
  {
    SelectionConcat(q, late, ExpiredBy(snapshot));
    NothingExpiredIn(late, snapshot);
  }

  lemma {:induction false} PushedIsLate(ops: seq<QueueOp>, snapshot: int)
    requires ArmedAfter(ops, snapshot) && OnlyPushes(ops)
    ensures NoneBefore(Pushed(ops), snapshot)
  {
    if ops != [] {
      PushedIsLate(ops[1..], snapshot);
    }
  }

  /** One turn of a sweep whose handler only re-arms, on the level of what is selected and what stays. */
  lemma RearmingTurn(q: seq<Timer>, snapshot: int, ops: seq<QueueOp>)
    requires ArmedAfter(ops, snapshot) && OnlyPushes(ops)
    requires FirstMatch(q, ExpiredBy(snapshot)) < |q|
    ensures var expired := ExpiredBy(snapshot);
            var next := NextLook(q, snapshot, ops);
            && Selected(q, expired) == [q[FirstMatch(q, expired)]] + Selected(next, expired)
            && Rejected(next, expired) == Rejected(q, expired) + Pushed(ops)
  {
    var left := WithoutFirst(q, ExpiredBy(snapshot));
    RemovalSplitsSelection(q, ExpiredBy(snapshot));
    PushesAppend(left, ops);
    PushedIsLate(ops, snapshot);
    LateTimersAreKept(left, Pushed(ops), snapshot);
  }

  /** The outcome of a sweep that fires exactly the expired timers in queue order and leaves the others in order,
      followed by the re-armed ones in order. */
  ghost predicate Exact(r: SweepResult, q: seq<Timer>, snapshot: int, env: nat -> seq<QueueOp>, turn: nat) {
    && r.fired == Selected(q, ExpiredBy(snapshot))
    && r.rest == Rejected(q, ExpiredBy(snapshot)) + PushedDuring(env, turn, |r.fired|)
  }

  lemma ExactBefore(r: SweepResult, q: seq<Timer>, snapshot: int, env: nat -> seq<QueueOp>, turn: nat)
    requires ArmedAfter(env(turn), snapshot) && OnlyPushes(env(turn))
    requires FirstMatch(q, ExpiredBy(snapshot)) < |q|
    requires Exact(r, NextLook(q, snapshot, env(turn)), snapshot, env, turn + 1)
    ensures Exact(SweepResult([q[FirstMatch(q, ExpiredBy(snapshot))]] + r.fired, r.rest), q, snapshot, env, turn)
  {
    RearmingTurn(q, snapshot, env(turn));
    var late := PushedDuring(env, turn + 1, |r.fired|);
    assert PushedDuring(env, turn, 1 + |r.fired|) == Pushed(env(turn)) + late;
    Associative(Rejected(q, ExpiredBy(snapshot)), Pushed(env(turn)), late);
  }

  /** When all that happens is that the handler re-arms, reading the clock after the snapshot, the outcome is exact. */
  lemma {:induction false} SweepIsExact(q: seq<Timer>, snapshot: int, env: nat -> seq<QueueOp>, turn: nat)
    requires CalmFrom(env, snapshot, 0)
    requires forall n: nat :: OnlyPushes(env(n))
    ensures Exact(Sweep(q, snapshot, env, turn, 0), q, snapshot, env, turn)
    decreases CountBelow(q, snapshot)
  {
    if FirstMatch(q, ExpiredBy(snapshot)) == |q| {
      RemovalSplitsSelection(q, ExpiredBy(snapshot));
    } else {
      var next := NextLook(q, snapshot, env(turn));
      NextLookBelow(q, snapshot, env(turn));
      SweepIsExact(next, snapshot, env, turn + 1);
      ExactBefore(Sweep(next, snapshot, env, turn + 1, 0), q, snapshot, env, turn);
    }
  }

  lemma Associative<T>(a: seq<T>, b: seq<T>, c: seq<T>)
    ensures (a + b) + c == a + (b + c)
  {
  }

  /** The pool object. Its callers pass the clock reading that `addNewTimer` takes. */
  class TimerPool {
    const queue: BlockingDequeue<Timer>
    const duration: nat

    constructor (durationMs: nat)
      ensures fresh(queue) && queue.queue == []
      ensures duration == durationMs * 1_000_000
    {
      queue := new BlockingDequeue<Timer>();
      duration := durationMs * NS_PER_MS;
    }

    method AddNewTimer(id: string, clock: int)
      modifies queue
      ensures queue.queue == old(queue.queue) + [Timer(clock + duration, id)]
      ensures queue.queue == Apply(old(queue.queue), Push(Timer(clock + duration, id)))
    {
      queue.PushBack(Timer(clock + duration, id));
    }

    method DeleteTimer(id: string) returns (deleted: bool)
      modifies queue
      ensures deleted <==> exists t <- old(queue.queue) :: t.id == id
      ensures queue.queue == WithoutFirst(old(queue.queue), HasId(id))
      ensures queue.queue == Apply(old(queue.queue), Delete(id))
    {
      ghost var was := queue.queue;
      var pair := queue.RetrieveOneIf(HasId(id));
      deleted := pair.Some?;
      if deleted {
        assert HasId(id)(was[FirstMatch(was, HasId(id))]);
      } else {
        assert forall t <- was :: !HasId(id)(t);
      }
    }

    /** The end of one round of the pool thread: look at the front timer, read the clock, sleep.
        On a sorted queue the sleep ends no later than any deadline that was still ahead. */
    method SleepUntilFront(clock: int) returns (wake: int)
      requires queue.queue != []
      ensures wake == WakeTime(clock, queue.queue[0].deadline)
      ensures Sorted(queue.queue) ==> forall t <- queue.queue :: t.deadline >= clock ==> clock <= wake <= t.deadline
    {
      var front := queue.Front();
      WakeBounds(clock, front.deadline);
      wake := WakeTime(clock, front.deadline);
    }
  }
}
