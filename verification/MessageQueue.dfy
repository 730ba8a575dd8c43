/** The message queue of a service and the global list of queues (src/queue.c): a ring that
    doubles when it is full, and a list threaded through the queues themselves. What the locks
    around these operations buy is in Scheduler.dfy; here each operation is what its critical
    section does.
 */
module MessageQueue {
  import opened Basics

  const QUEUE_SIZE: nat := 64
  const QUEUE_OVERLOAD: nat := 1024

  /** A message; its contents do not matter here. */
  type Message = int

  /** The first of threshold, 2 * threshold, 4 * threshold, ... that `len` does not exceed. */
  function Doubled(threshold: nat, len: nat): (r: nat)
    requires threshold > 0
    ensures r >= len && r >= threshold
    ensures len <= threshold ==> r == threshold
    ensures len > threshold ==> r < 2 * len
    decreases len - threshold
  {
    if len > threshold then Doubled(2 * threshold, len) else threshold
  }

  function Next(i: nat, cap: nat): nat { if i + 1 >= cap then 0 else i + 1 }

  /** The elements of a ring from `head` to before `tail`. */
  function Between(a: seq<Message>, head: nat, tail: nat): (r: seq<Message>)
    requires head < |a| && tail < |a|
    ensures |r| == if head <= tail then tail - head else tail - head + |a|
  {
    if head <= tail then a[head..tail] else a[head..] + a[..tail]
  }

  /** All elements of a full ring. */
  function Whole(a: seq<Message>, head: nat): (r: seq<Message>)
    requires head < |a|
    ensures |r| == |a|
  {
    a[head..] + a[..head]
  }

  lemma PutAtTail(a: seq<Message>, head: nat, tail: nat, m: Message)
    requires head < |a| && tail < |a|
    ensures var next := Next(tail, |a|);
            (if next == head then Whole(a[tail := m], head) else Between(a[tail := m], head, next)) == Between(a, head, tail) + [m]
  {
  }

  lemma TakeAtHead(a: seq<Message>, head: nat, tail: nat)
    requires head < |a| && tail < |a| && head != tail
    ensures Between(a, head, tail) == [a[head]] + Between(a, Next(head, |a|), tail)
  {
  }

  class Queue {
    const handle: nat
    var cap: nat
    var head: nat
    var tail: nat
    var inGlobal: bool
    var release: bool
    var overload: nat
    var overloadThreshold: nat
    var mqueue: array<Message>
    /** The link of the global list. */
    var next: Queue?

    ghost predicate Ring()
      reads `cap, `head, `tail, `mqueue
    {
      cap == mqueue.Length && head < cap && tail < cap
    }

    ghost predicate Valid()
      reads `cap, `head, `tail, `mqueue, `overloadThreshold
    {
      Ring() && overloadThreshold > 0
    }

    /** The waiting messages, the oldest first. */
    ghost function Contents(): seq<Message>
      requires Ring()
      reads `cap, `head, `tail, `mqueue, mqueue
    {
      Between(mqueue[..], head, tail)
    }

    constructor (h: nat)
      ensures Valid() && Contents() == [] && handle == h
      ensures inGlobal && !release && next == null && overload == 0 && fresh(mqueue)
    {
      handle := h;
      cap, head, tail := QUEUE_SIZE, 0, 0;
      inGlobal, release, overload, overloadThreshold := true, false, 0, QUEUE_OVERLOAD;
      mqueue := new Message[QUEUE_SIZE];
      next := null;
    }

    /** Called when the ring is full, that is, when the tail has caught up with the head. */
    method Expand()
      requires cap == mqueue.Length > 0 && head == tail < cap
      modifies `cap, `head, `tail, `mqueue
      ensures Ring() && fresh(mqueue) && cap == 2 * old(cap)
      ensures Contents() == Whole(old(mqueue[..]), old(head))
    {
      var newq := new Message[2 * cap];
      var i := 0;
      while i < cap
        invariant 0 <= i <= cap && unchanged(this)
        invariant forall j :: 0 <= j < i ==> newq[j] == Whole(mqueue[..], head)[j]
      {
        Around(head, i, cap);
        newq[i] := mqueue[(head + i) % cap];
        i := i + 1;
      }
      assert newq[..cap] == Whole(mqueue[..], head);
      head, tail, cap, mqueue := 0, cap, 2 * cap, newq;
    }

    /** Appends a message; the ring never loses one. The queue has to be put on the global list
        exactly when it was not accounted for there. */
    method Push(m: Message) returns (schedule: bool)
      requires Valid()
      modifies `cap, `head, `tail, `mqueue, `inGlobal, mqueue
      ensures Valid() && (mqueue == old(mqueue) || fresh(mqueue))
      ensures Contents() == old(Contents()) + [m]
      ensures inGlobal && schedule == !old(inGlobal)
    {
      hide Between, Whole;
      PutAtTail(mqueue[..], head, tail, m);
      ghost var filled := mqueue[..][tail := m];
      mqueue[tail] := m;
      assert mqueue[..] == filled;
      tail := tail + 1;
      if tail >= cap {
        tail := 0;
      }
      if head == tail {
        Expand();
      }
      schedule := !inGlobal;
      if !inGlobal {
        inGlobal := true;
      }
    }

    /** Takes the oldest message. An empty queue gives up its place on the global list. */
    method Pop() returns (m: Option<Message>)
      requires Valid()
      modifies `head, `overload, `overloadThreshold, `inGlobal
      ensures Valid()
      ensures m.Some? ==> old(Contents()) == [m.value] + Contents() && inGlobal == old(inGlobal)
      ensures m.None? ==> old(Contents()) == [] == Contents() && !inGlobal
      ensures m.Some? ==> overloadThreshold == Doubled(old(overloadThreshold), |Contents()|)
      ensures m.Some? ==> overload == if |Contents()| > old(overloadThreshold) then |Contents()| else old(overload)
      ensures m.None? ==> overloadThreshold == QUEUE_OVERLOAD && overload == old(overload)
    {
      hide Between;
      if head != tail {
        TakeAtHead(mqueue[..], head, tail);
        m := Some(mqueue[head]);
        head := head + 1;
        if head >= cap {
          head := 0;
        }
        var len := tail - head;
        if len < 0 {
          len := len + cap;
        }
        assert len == |Contents()|;
        while len > overloadThreshold
          invariant overloadThreshold >= old(overloadThreshold)
          invariant Doubled(overloadThreshold, len) == Doubled(old(overloadThreshold), len)
          invariant overload == if overloadThreshold == old(overloadThreshold) then old(overload) else len
          invariant overloadThreshold != old(overloadThreshold) ==> len > old(overloadThreshold)
          decreases len - overloadThreshold
          modifies `overload, `overloadThreshold
        {
          overload := len;
          overloadThreshold := 2 * overloadThreshold;
        }
      } else {
        m := None;
        overloadThreshold := QUEUE_OVERLOAD;
        inGlobal := false;
      }
    }

    method Len() returns (n: nat)
      requires Valid()
      ensures n == |Contents()|
    {
      n := if head <= tail then tail - head else tail + cap - head;
    }

    /** Reports an overload once. */
    method Overload() returns (n: nat)
      modifies `overload
      ensures n == old(overload) && overload == 0
    {
      n := overload;
      if overload != 0 {
        overload := 0;
      }
    }

    /** A released queue is put on the list if it is not there, so that a worker comes to free
        it. */
    method MarkFree() returns (schedule: bool)
      requires !release
      modifies `release
      ensures release && schedule == !inGlobal
    {
      release := true;
      schedule := !inGlobal;
    }

    /** What is left when a released queue is freed: every message is dropped, in order. */
    method Drop() returns (dropped: seq<Message>)
      requires Valid()
      modifies `head, `overload, `overloadThreshold, `inGlobal
      ensures Valid() && Contents() == [] && dropped == old(Contents())
    {
      hide Contents, Ring;
      dropped := [];
      var m := Pop();
      while m.Some?
        invariant Valid() && (m.None? ==> Contents() == [])
        invariant old(Contents()) == if m.Some? then (dropped + [m.value]) + Contents() else dropped
        decreases |Contents()|, m.Some?
      {
        dropped := dropped + [m.value];
        m := Pop();
      }
    }
  }

  lemma Around(head: nat, i: nat, cap: nat)
    requires head < cap && i < cap
    ensures (head + i) % cap == if head + i < cap then head + i else head + i - cap
  {
  }

  /** The global list. A queue that is pushed must not be in the list already, and its link must
      be null: the push does not clear it. */
  class GlobalList {
    var head: Queue?
    var tail: Queue?
    ghost var queues: seq<Queue>

    ghost predicate Valid()
      reads this, queues`next
    {
      if queues == [] then head == null && tail == null
      else
        && head == queues[0] && tail == queues[|queues| - 1]
        && (forall i :: 0 <= i < |queues| - 1 ==> queues[i].next == queues[i + 1])
        && queues[|queues| - 1].next == null
        && (forall i, j :: 0 <= i < j < |queues| ==> queues[i] != queues[j])
    }

    constructor ()
      ensures Valid() && queues == []
    {
      head, tail, queues := null, null, [];
    }

    method Push(q: Queue)
      requires Valid() && q !in queues && q.next == null
      modifies this, queues`next
      ensures Valid() && queues == old(queues) + [q]
    {
      if tail != null {
        tail.next := q;
        tail := q;
      } else {
        head := q;
        tail := q;
      }
      queues := queues + [q];
    }

    /** The queue that has waited longest; its link is cleared, so that it can be pushed again. */
    method Pop() returns (q: Queue?)
      requires Valid()
      modifies this, queues`next
      ensures Valid()
      ensures q == null <==> old(queues) == []
      ensures q == null ==> queues == []
      ensures q != null ==> old(queues) == [q] + queues && q !in queues && q.next == null
    {
      q := head;
      if q != null {
        head := q.next;
        if head == null {
          tail := null;
        }
        q.next := null;
        queues := queues[1..];
      }
    }
  }
}
