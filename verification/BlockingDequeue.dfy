/** The queue under the timer pool: append at the back, remove the first element that matches. */
module BlockingDequeues {
  import opened Wrappers

  /** Index of the first element that satisfies `pred`, or |q| when no element does. */
  function FirstMatch<T>(q: seq<T>, pred: T -> bool): (i: nat)
    ensures i <= |q|
    ensures forall j :: 0 <= j < i ==> !pred(q[j])
    ensures i < |q| ==> pred(q[i])
  {
    if q == [] || pred(q[0]) then 0 else 1 + FirstMatch(q[1..], pred)
  }

  /** What is left of `q` once its first match is gone. */
  function WithoutFirst<T>(q: seq<T>, pred: T -> bool): seq<T> {
    var i := FirstMatch(q, pred);
    if i < |q| then q[..i] + q[i + 1..] else q
  }

  /** The matching elements, in queue order. */
  function Selected<T>(q: seq<T>, pred: T -> bool): seq<T> {
    if q == [] then []
    else (if pred(q[0]) then [q[0]] else []) + Selected(q[1..], pred)
  }

  /** The elements that do not match, in queue order. */
  function Rejected<T>(q: seq<T>, pred: T -> bool): seq<T> {
    if q == [] then []
    else (if pred(q[0]) then [] else [q[0]]) + Rejected(q[1..], pred)
  }

  lemma RemoveAtElements<T>(q: seq<T>, i: nat)
    requires i < |q|
    ensures forall t <- q[..i] + q[i + 1..] :: t in q
    ensures forall t <- q :: t != q[i] ==> t in q[..i] + q[i + 1..]
  {
  }

  /** Removal by first match takes away no element that differs from the one it hands out. */
  lemma WithoutFirstElements<T>(q: seq<T>, pred: T -> bool)
    ensures var i := FirstMatch(q, pred);
            && (forall t <- WithoutFirst(q, pred) :: t in q)
            && (forall t <- q :: i == |q| || t != q[i] ==> t in WithoutFirst(q, pred))
  {
    var i := FirstMatch(q, pred);
    if i < |q| {
      RemoveAtElements(q, i);
    }
  }

  lemma WithoutFirstCons<T>(x: T, q: seq<T>, pred: T -> bool)
    ensures WithoutFirst([x] + q, pred) == (if pred(x) then q else [x] + WithoutFirst(q, pred))
  {
    var xq, i := [x] + q, FirstMatch(q, pred);
    assert xq[1..] == q && xq[0] == x;
    if pred(x) {
      assert FirstMatch(xq, pred) == 0;
      assert xq[..0] + xq[1..] == q;
    } else {
      assert FirstMatch(xq, pred) == 1 + i;
      if i < |q| {
        ConsWithoutAt(x, q, i);
      }
    }
  }

  lemma ConsWithoutAt<T>(x: T, q: seq<T>, i: nat)
    requires i < |q|
    ensures ([x] + q)[..1 + i] + ([x] + q)[2 + i..] == [x] + (q[..i] + q[i + 1..])
  {
    assert ([x] + q)[..1 + i] == [x] + q[..i];
    assert ([x] + q)[2 + i..] == q[i + 1..];
  }

  /** One removal takes the head of the selection and leaves the rest of it, and the rejects, in order. */
  lemma {:induction false} RemovalSplitsSelection<T>(q: seq<T>, pred: T -> bool)
    ensures Rejected(WithoutFirst(q, pred), pred) == Rejected(q, pred)
    ensures var i := FirstMatch(q, pred);
            if i < |q| then Selected(q, pred) == [q[i]] + Selected(WithoutFirst(q, pred), pred)
            else Selected(q, pred) == [] && Rejected(q, pred) == q
  {
    if q != [] {
      var x, tail := q[0], q[1..];
      assert q == [x] + tail;
      WithoutFirstCons(x, tail, pred);
      if !pred(x) {
        RemovalSplitsSelection(tail, pred);
        var rest := [x] + WithoutFirst(tail, pred);
        assert rest[0] == x && rest[1..] == WithoutFirst(tail, pred);
        assert Selected(q, pred) == Selected(tail, pred) && Rejected(q, pred) == [x] + Rejected(tail, pred);
        assert Selected(rest, pred) == Selected(WithoutFirst(tail, pred), pred);
      }
    }
  }

  /** The source's queue class. Each method is one atomic step; `Front` is called once the wait for an element is
      over. */
  class BlockingDequeue<T> {
    var queue: seq<T>

    constructor ()
      ensures queue == []
    {
      queue := [];
    }

    method PushBack(value: T)
      modifies this
      ensures queue == old(queue) + [value]
    {
      queue := queue + [value];
    }

    method PopFront()
      requires queue != []
      modifies this
      ensures queue == old(queue)[1..]
    {
      queue := queue[1..];
    }

    method Front() returns (value: T)
      requires queue != []
      ensures value == queue[0]
    {
      value := queue[0];
    }

    /** Scans from the front and takes out the first element that matches. */
    method RetrieveOneIf(pred: T -> bool) returns (value: Option<T>)
      modifies this
      ensures var i := FirstMatch(old(queue), pred);
              value == (if i < |old(queue)| then Some(old(queue)[i]) else None)
      ensures queue == WithoutFirst(old(queue), pred)
    {
      var it := 0;
      while it < |queue|
        invariant 0 <= it <= |queue|
        invariant queue == old(queue)
        invariant forall j :: 0 <= j < it ==> !pred(queue[j])
      {
        if pred(queue[it]) {
          value := Some(queue[it]);
          queue := queue[..it] + queue[it + 1..];
          return;
        }
        it := it + 1;
      }
      value := None;
    }
  }
}
