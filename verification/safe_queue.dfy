/**
 Model of `SafeQueue<T>`: a `std::queue<T>` held in a `CV`, seen as the
 sequence of its elements from front to back.

 `Push` and `Pop` run their whole callback under the exclusive `with_lock`,
 so each is a function from the queue before it to the queue after it, and
 the queue's history is the sequence of these calls in lock order.
 `WaitForOne` goes through `CV::wait`, which takes the same mutex itself and
 releases it while asleep; only each check of its predicate runs under the
 lock.
 */
module SafeQueue {
  import opened Wrappers
  import Mtx
  import CondVar

  /** What `Pop` leaves behind and what it hands back. */
  datatype Popped<T> = Popped(queue: seq<T>, value: Option<T>)

  /**
   `Push(value)`: the value goes to the back. The queue grows by exactly one,
   the elements already queued keep their places, and the new last element is
   the value pushed.
   */
  function Push<T>(q: seq<T>, v: T): (r: seq<T>)
    ensures |r| == |q| + 1
    ensures r[..|q|] == q
    ensures r[|q|] == v
  {
    Mtx.WithLock(q, (queue: seq<T>) => (queue + [v], ())).0
  }

  /**
   `Pop()`: never waits. On an empty queue it reports no value and leaves the
   queue as it was; otherwise it hands back the front element and leaves the
   rest, one shorter, in the same order.
   */
  function Pop<T>(q: seq<T>): (r: Popped<T>)
    ensures |q| == 0 ==> r.value.None? && r.queue == q
    ensures |q| > 0 ==> r.value == Some(q[0]) && |r.queue| == |q| - 1
    ensures |q| > 0 ==> forall i :: 0 <= i < |r.queue| ==> r.queue[i] == q[i + 1]
  {
    var (rest, front) := Mtx.WithLock(q, (queue: seq<T>) =>
      if |queue| != 0 then (queue[1..], Some(queue[0])) else (queue, None));
    Popped(rest, front)
  }

  /**
   Pushing and popping neither invent nor lose elements: a push adds exactly
   the pushed value to the queue's contents, and a pop moves exactly the value
   it reports (if any) out of the queue.
   */
  lemma PushPopConserve<T>(q: seq<T>, v: T)
    ensures multiset(Push(q, v)) == multiset(q) + multiset{v}
    ensures Pop(q).value.None? ==> multiset(Pop(q).queue) == multiset(q)
    ensures Pop(q).value.Some? ==>
      multiset(Pop(q).queue) + multiset{Pop(q).value.value} == multiset(q)
  {
    if |q| > 0 {
      assert q == [q[0]] + q[1..];
    }
  }

  /**
   A push does not disturb the front: popping after a push hands back what a
   pop before the push would have (the pushed value itself when the queue was
   empty), and the pushed value ends up behind whatever remains.
   */
  lemma PushThenPop<T>(q: seq<T>, v: T)
    ensures |q| == 0 ==> Pop(Push(q, v)) == Popped([], Some(v))
    ensures |q| > 0 ==> Pop(Push(q, v)) == Popped(Push(Pop(q).queue, v), Some(q[0]))
  {
  }

  /** The queue after pushing `xs` one by one, front first, onto `q`. */
  function PushAll<T>(q: seq<T>, xs: seq<T>): seq<T>
    decreases |xs|
  {
    if |xs| == 0 then q else PushAll(Push(q, xs[0]), xs[1..])
  }

  /** Successive pushes append the pushed values to the back in push order. */
  lemma {:induction false} PushAllAppends<T>(q: seq<T>, xs: seq<T>)
    ensures PushAll(q, xs) == q + xs
    decreases |xs|
  {
    if |xs| > 0 {
      PushAllAppends(Push(q, xs[0]), xs[1..]);
      assert Push(q, xs[0]) + xs[1..] == q + xs;
    }
  }

  /** What `n` successive pops leave behind and hand back, in call order. */
  datatype Drained<T> = Drained(queue: seq<T>, values: seq<Option<T>>)

  function PopMany<T>(q: seq<T>, n: nat): Drained<T>
  {
    if n == 0 then Drained(q, [])
    else
      var p := Pop(q);
      var d := PopMany(p.queue, n - 1);
      Drained(d.queue, [p.value] + d.values)
  }

  /**
   `n` successive pops hand back the first `n` queued elements, front first,
   and then report no value for every pop the queue cannot serve; they leave
   exactly the elements not handed back.
   */
  lemma {:induction false} PopManyTakesFront<T>(q: seq<T>, n: nat)
    ensures |PopMany(q, n).values| == n
    ensures forall i :: 0 <= i < n ==>
      PopMany(q, n).values[i] == if i < |q| then Some(q[i]) else None
    ensures PopMany(q, n).queue == if n <= |q| then q[n..] else []
  {
    if n > 0 {
      var p := Pop(q);
      PopManyTakesFront(p.queue, n - 1);
      if |q| > 0 {
        assert p.queue == q[1..];
      }
    }
  }

  /**
   FIFO round trip: pushing `xs` onto an empty queue and then popping once
   more than was pushed hands the values back in push order, then reports no
   value, and leaves the queue empty.
   */
  lemma FifoRoundTrip<T>(xs: seq<T>)
    ensures |PopMany(PushAll([], xs), |xs| + 1).values| == |xs| + 1
    ensures forall i :: 0 <= i < |xs| ==> PopMany(PushAll([], xs), |xs| + 1).values[i] == Some(xs[i])
    ensures PopMany(PushAll([], xs), |xs| + 1).values[|xs|] == None
    ensures PopMany(PushAll([], xs), |xs| + 1).queue == []
  {
    PushAllAppends([], xs);
    assert PushAll([], xs) == xs;
    PopManyTakesFront(xs, |xs| + 1);
  }

  /** `Push(a); Push(b)` on a new queue, then three pops: `a`, `b`, nothing. */
  lemma TwoPushesThreePops<T>(a: T, b: T)
    ensures PopMany(Push(Push([], a), b), 3).values == [Some(a), Some(b), None]
  {
    FifoRoundTrip([a, b]);
  }

  /** The predicate `WaitForOne` hands to `CV::wait`: the queue is empty. */
  predicate IsEmpty<T>(queue: seq<T>)
  {
    |queue| == 0
  }

  /** What one check of `WaitForOne` leaves behind and whether the wait is over. */
  datatype Checked<T> = Checked(queue: seq<T>, finished: bool)

  /**
   One check of `WaitForOne(stop)`. The predicate is literally "the queue is
   empty", so the wait is over exactly when the queue is empty or stop is
   requested; the check only reads the queue. `CV::wait` takes the lock
   itself rather than going through `with_lock`. `WaitForOne` discards what
   the wait reports.
   */
  function WaitForOneCheck<T>(q: seq<T>, stopRequested: bool): (r: Checked<T>)
    ensures r.queue == q
    ensures r.finished <==> |q| == 0 || stopRequested
  {
    Checked(q, CondVar.WaitStep(q, IsEmpty, stopRequested).Return?)
  }

  /**
   A whole `WaitForOne(stop)` over the states seen at its checks. It returns
   at the first check that finds the queue empty or a stop request, and
   sleeps through every check before it; it is still asleep (`None`) exactly
   when no check has found either.
   */
  function WaitForOne<T>(obs: seq<CondVar.Observation<seq<T>>>): (r: Option<nat>)
    ensures r.None? <==>
      forall i :: 0 <= i < |obs| ==> |obs[i].value| > 0 && !obs[i].stopRequested
    ensures r.Some? ==>
      && r.value < |obs|
      && (|obs[r.value].value| == 0 || obs[r.value].stopRequested)
      && forall i :: 0 <= i < r.value ==> |obs[i].value| > 0 && !obs[i].stopRequested
  {
    match CondVar.RunWait(obs, IsEmpty)
    case None => None
    case Some(o) => Some(o.check)
  }

  /**
   Pushes never end a `WaitForOne` that started on a non-empty queue: with no
   stop request, a waiter that checks after each of a run of pushes sleeps
   through all of them, while on an empty queue it returns at its first check
   without waiting for any push.
   */
  lemma WaitForOneIgnoresPushes<T>(q: seq<T>, xs: seq<T>)
    ensures
      var obs := seq(|xs| + 1, i requires 0 <= i <= |xs| => CondVar.Observation(PushAll(q, xs[..i]), false));
      WaitForOne(obs) == if |q| == 0 then Some(0) else None
  {
    var obs := seq(|xs| + 1, i requires 0 <= i <= |xs| => CondVar.Observation(PushAll(q, xs[..i]), false));
    forall i | 0 <= i <= |xs|
      ensures |obs[i].value| >= |q|
    {
      PushAllAppends(q, xs[..i]);
    }
  }
}
