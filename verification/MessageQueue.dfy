/**
 The message queue of a service and the global list of queues (skynet-src/skynet_mq.c): a
 growing ring buffer that refines a sequence, and an intrusive linked list that refines a
 sequence of queues. Each operation is the region under its spin lock.
 */
module MessageQueue {
  import opened Options

  const DEFAULT_QUEUE_SIZE := 64
  const MQ_OVERLOAD := 1024

  /** 1024 times a power of two. */
  predicate IsThreshold(t: nat) {
    t == MQ_OVERLOAD || (t > MQ_OVERLOAD && t % 2 == 0 && IsThreshold(t / 2))
  }

  lemma FirstThreshold()
    ensures IsThreshold(MQ_OVERLOAD)
  {
  }

  /** The part of a ring between head and tail, in queue order. */
  function Ring<M>(q: seq<M>, head: nat, tail: nat): seq<M>
    requires head < |q| && tail < |q|
  {
    if head <= tail then q[head..tail] else q[head..] + q[..tail]
  }

  lemma RingFront<M>(q: seq<M>, head: nat, tail: nat)
    requires head < |q| && tail < |q| && head != tail
    ensures var next := if head + 1 >= |q| then 0 else head + 1;
      Ring(q, head, tail) == [q[head]] + Ring(q, next, tail)
  {
    if head + 1 >= |q| {
      assert q[head..] == [q[head]];
    } else if head < tail {
      assert q[head..tail] == [q[head]] + q[head + 1..tail];
    } else {
      assert q[head..] == [q[head]] + q[head + 1..];
      assert [q[head]] + q[head + 1..] + q[..tail] == [q[head]] + (q[head + 1..] + q[..tail]);
    }
  }

  lemma RingLength<M>(q: seq<M>, head: nat, tail: nat)
    requires head < |q| && tail < |q|
    ensures |Ring(q, head, tail)| == if head <= tail then tail - head else tail + |q| - head
  {
  }

  class MessageQueue<M(0)> {
    const handle: nat
    const concurrent: bool
    var queue: array<M>
    var cap: nat
    var head: nat
    var tail: nat
    var inGlobal: bool
    var overload: nat
    var threshold: nat
    var next: MessageQueue?<M>

    ghost predicate Valid()
      reads this, queue
    {
      && queue.Length == cap >= DEFAULT_QUEUE_SIZE
      && head < cap && tail < cap
      && IsThreshold(threshold)
    }

    /** The queue as its users see it. */
    ghost function Contents(): (c: seq<M>)
      requires Valid()
      reads this, queue
      ensures |c| < cap
    {
      Ring(queue[..], head, tail)
    }

    constructor (handle: nat, concurrent: bool)
      ensures Valid() && Contents() == [] && inGlobal && next == null && fresh(queue)
      ensures this.handle == handle && this.concurrent == concurrent && threshold == MQ_OVERLOAD && overload == 0
    {
      this.handle, this.concurrent := handle, concurrent;
      queue := new M[DEFAULT_QUEUE_SIZE];
      cap, head, tail := DEFAULT_QUEUE_SIZE, 0, 0;
      inGlobal := true;
      overload, threshold := 0, MQ_OVERLOAD;
      next := null;
    }

    method Length() returns (n: nat)
      requires Valid()
      ensures n == |Contents()|
    {
      n := if head <= tail then tail - head else tail + cap - head;
    }

    /** Doubles a full ring: everything from head around to head becomes the first half. */
    method ExpandQueue()
      requires queue.Length == cap >= DEFAULT_QUEUE_SIZE && head == tail < cap && IsThreshold(threshold)
      modifies this`queue, this`cap, this`head, this`tail
      ensures Valid() && fresh(queue) && cap == 2 * old(cap)
      ensures Contents() == old(queue[head..] + queue[..head])
    {
      var newQueue := new M[cap * 2];
      var i := 0;
      while i < cap
        invariant 0 <= i <= cap
        invariant forall j :: 0 <= j < i ==> newQueue[j] == queue[(head + j) % cap]
        modifies newQueue
      {
        newQueue[i] := queue[(head + i) % cap];
        i := i + 1;
      }
      ghost var was := queue[head..] + queue[..head];
      forall j | 0 <= j < cap
        ensures newQueue[j] == was[j]
      {
        Wrap(head + j, cap);
      }
      head := 0;
      tail := cap;
      cap := cap * 2;
      queue := newQueue;
      assert queue[..][..tail] == was;
    }

    /** Appends a message; a ring that would become full is doubled at once. */
    method Put(m: M)
      requires Valid()
      modifies this`queue, this`cap, this`head, this`tail, queue
      ensures Valid() && (queue == old(queue) || fresh(queue))
      ensures Contents() == old(Contents()) + [m]
    {
      ghost var was := Contents();
      queue[tail] := m;
      var last := tail;
      tail := tail + 1;
      if tail >= cap {
        tail := 0;
      }
      if head == tail {
        assert queue[head..] + queue[..head] == was + [m];
        ExpandQueue();
      } else {
        assert Contents() == was + [m];
      }
    }

    /** The overload watch: the threshold doubles until it covers the length. */
    method Watch(length: nat)
      requires IsThreshold(threshold)
      modifies this`overload, this`threshold
      ensures IsThreshold(threshold) && length <= threshold && old(threshold) <= threshold
      ensures overload == if length > old(threshold) then length else old(overload)
    {
      while length > threshold
        invariant IsThreshold(threshold) && threshold >= old(threshold)
        invariant threshold > old(threshold) ==> length > old(threshold)
        invariant overload == if threshold > old(threshold) then length else old(overload)
        modifies this`overload, this`threshold
        decreases length - threshold
      {
        overload := length;
        threshold := threshold * 2;
      }
    }

    /** Removes the front. An empty queue gives up its place in the global list. */
    method Pop() returns (m: Option<M>)
      requires Valid()
      modifies this`head, this`overload, this`threshold, this`inGlobal
      ensures Valid()
      ensures m.Some? <==> old(Contents()) != []
      ensures m.Some? ==> old(Contents()) == [m.value] + Contents() && inGlobal == old(inGlobal)
      ensures m.Some? ==> |Contents()| <= threshold && old(threshold) <= threshold
      ensures m.Some? ==> overload == if |Contents()| > old(threshold) then |Contents()| else old(overload)
      ensures m.None? ==> Contents() == [] && threshold == MQ_OVERLOAD && overload == old(overload)
      ensures m.None? ==> inGlobal == (concurrent && old(inGlobal))
    {
      hide Ring, IsThreshold;
      RingLength(queue[..], head, tail);
      if head != tail {
        RingFront(queue[..], head, tail);
        m := Some(queue[head]);
        head := head + 1;
        if head >= cap {
          head := 0;
        }
        RingLength(queue[..], head, tail);
        var length: int := tail - head;
        if length < 0 {
          length := length + cap;
        }
        Watch(length);
      } else {
        m := None;
        threshold := MQ_OVERLOAD;
        FirstThreshold();
        if !concurrent {
          inGlobal := false;
        }
      }
    }

    /** `skynet_mq_push`: a queue nobody owns is published. */
    method Push(m: M, g: GlobalQueue<M>)
      requires Valid() && g.Valid()
      requires !inGlobal ==> next == null && this !in g.list
      modifies this, queue, g, (set q | q in g.list)`next
      ensures Valid() && g.Valid() && inGlobal
      ensures Contents() == old(Contents()) + [m]
      ensures g.list == if old(inGlobal) then old(g.list) else old(g.list) + [this]
      ensures threshold == old(threshold) && overload == old(overload)
    {
      Put(m);
      label put:
      if !inGlobal {
        inGlobal := true;
        g.Append(this);
      }
    }
  }

  lemma Wrap(i: nat, cap: nat)
    requires cap > 0 && i < 2 * cap
    ensures i % cap == if i < cap then i else i - cap
  {
  }

  /** The global list, linked through the `next` fields of its queues. */
  class GlobalQueue<M(0)> {
    var head: MessageQueue?<M>
    var tail: MessageQueue?<M>
    ghost var list: seq<MessageQueue<M>>

    /** Acyclic and without duplicates; `tail` is the last queue and its `next` is null. */
    ghost predicate Valid()
      reads this, list`next
    {
      && (|list| == 0 <==> head == null) && (|list| == 0 <==> tail == null)
      && (|list| > 0 ==> head == list[0] && tail == list[|list| - 1])
      && (|list| > 0 ==> list[|list| - 1].next == null)
      && (forall i {:trigger list[i].next} :: 0 <= i < |list| - 1 ==> list[i].next == list[i + 1])
      && (forall i, j :: 0 <= i < j < |list| ==> list[i] != list[j])
    }

    constructor ()
      ensures Valid() && list == []
    {
      head, tail, list := null, null, [];
    }

    /** `skynet_globalmq_push`. */
    method Append(q: MessageQueue<M>)
      requires Valid() && q !in list && q.next == null
      modifies this, (set x | x in list)`next
      ensures Valid() && list == old(list) + [q]
    {
      if tail != null {
        tail.next := q;
        tail := q;
      } else {
        head := q;
        tail := q;
      }
      list := list + [q];
    }

    /** `skynet_globalmq_pop`: a concurrent queue goes straight back to the end. */
    method Take() returns (mq: MessageQueue?<M>)
      requires Valid()
      modifies this, (set x | x in list)`next
      ensures Valid()
      ensures mq == null <==> old(list) == []
      ensures mq == null ==> list == []
      ensures mq != null ==> mq == old(list)[0] && list == old(list)[1..] + if mq.concurrent then [mq] else []
      ensures mq != null && !mq.concurrent ==> mq.next == null && mq !in list
    {
      mq := head;
      if mq != null {
        assert |list| > 1 ==> list[0].next == list[1];
        head := mq.next;
        if head == null {
          assert mq == tail;
          tail := null;
        }
        mq.next := null;
        list := list[1..];
        if mq.concurrent {
          if tail != null {
            tail.next := mq;
            tail := mq;
          } else {
            head := mq;
            tail := mq;
          }
          list := list + [mq];
        }
      }
    }
  }
}
