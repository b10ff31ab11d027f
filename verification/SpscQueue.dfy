/**
 SpscQueue (include/xmbase/concurrency/spsc_queue.hpp) as the class it is, one producer and one consumer over an
 array of cells. Between any two shared accesses of one side the other side may take any number of steps;
 SpscWeak proves the ordering of the plain cell accesses that this interleaving takes for granted.
 */
module SpscQueue {
  import Laps

  class Queue<T> {
    const capacity: nat
    const cells: array<T>
    var head: nat
    var tail: nat
    ghost var pushed: seq<T>
    ghost var popped: seq<T>

    ghost predicate Valid()
      reads this, cells
    {
      && cells.Length == capacity >= 1
      && |popped| == head <= tail == |pushed| <= head + capacity
      && popped == pushed[..head]
      && forall q | head <= q < tail :: cells[q % capacity] == pushed[q]
    }

    /** The values still in the queue, oldest first. */
    ghost function Contents(): (s: seq<T>)
      requires Valid()
      reads this, cells
      ensures pushed == popped + s && |s| <= capacity
    {
      pushed[head..]
    }

    constructor (depth: nat, blank: T)
      ensures Valid() && fresh(cells)
      ensures capacity == (if depth == 0 then 1 else depth) && Contents() == []
    {
      var n := if depth == 0 then 1 else depth;
      capacity := n;
      cells := new T[n](i => blank);
      head, tail := 0, 0;
      pushed, popped := [], [];
    }

    /** What the consumer may do at any time, seen from the producer. */
    method ConsumerSteps()
      requires Valid()
      modifies this`head, this`popped
      ensures Valid() && head >= old(head) && old(popped) <= popped
    {
    }

    /** What the producer may do at any time, seen from the consumer. */
    method ProducerSteps()
      requires Valid()
      modifies this`tail, this`pushed, cells
      ensures Valid() && tail >= old(tail) && old(pushed) <= pushed
    {
    }

    /** A cell outside the outstanding ones can be overwritten. */
    lemma FreeCell(h: nat, t: nat, q: nat)
      requires capacity >= 1 && h <= q < t < h + capacity
      ensures q % capacity != t % capacity
    {
      if q % capacity == t % capacity { Laps.SameCellApart(capacity, q, t); }
    }

    /**
     Producer side. seen is the head that the load (Q1) returned: the push succeeds exactly if it leaves room,
     and then appends value to what was pushed; otherwise nothing is enqueued.
     */
    method TryPush(value: T) returns (ok: bool, ghost seen: nat)
      requires Valid()
      modifies this, cells
      ensures Valid() && old(head) <= seen <= head && old(popped) <= popped
      ensures ok <==> old(tail) - seen < capacity
      ensures pushed == if ok then old(pushed) + [value] else old(pushed)
    {
      var t := tail;
      ConsumerSteps();
      var h := head;
      seen := h;
      ConsumerSteps();
      if t - h >= capacity {
        return false, seen;
      }
      forall q | head <= q < t ensures q % capacity != t % capacity { FreeCell(head, t, q); }
      cells[t % capacity] := value;
      ConsumerSteps();
      tail := t + 1;
      pushed := pushed + [value];
      ConsumerSteps();
      ok := true;
    }

    /**
     Consumer side. seen is the tail that the load (Q4) returned: the pop succeeds exactly if it is past the head,
     and then copies out and removes the oldest value; otherwise out keeps what it held.
     */
    method TryPop(held: T) returns (ok: bool, out: T, ghost seen: nat)
      requires Valid()
      modifies this, cells
      ensures Valid() && old(tail) <= seen <= tail && old(pushed) <= pushed
      ensures ok <==> old(head) < seen
      ensures ok ==> popped == old(popped) + [out]
      ensures !ok ==> popped == old(popped) && out == held
      ensures ok && old(head) < old(tail) ==> out == old(Contents())[0]
    {
      out := held;
      var h := head;
      ProducerSteps();
      var t := tail;
      seen := t;
      ProducerSteps();
      if h == t {
        return false, out, seen;
      }
      out := cells[h % capacity];
      ProducerSteps();
      head := h + 1;
      popped := popped + [out];
      ProducerSteps();
      ok := true;
    }

    /** Producer side: whether the queue was full when the head was loaded. */
    method Full() returns (full: bool, ghost seen: nat)
      requires Valid()
      modifies this`head, this`popped
      ensures Valid() && old(head) <= seen <= head && old(popped) <= popped
      ensures full <==> seen + capacity == tail
    {
      var t := tail;
      ConsumerSteps();
      seen := head;
      full := t - head >= capacity;
      ConsumerSteps();
    }

    /** What the producer may conclude from Full: if it returned false, the next push succeeds. */
    method PushUnlessFull(value: T) returns (ok: bool)
      requires Valid()
      modifies this, cells
      ensures Valid()
      ensures pushed == if ok then old(pushed) + [value] else old(pushed)
      ensures old(|Contents()|) < capacity ==> ok
    {
      var full, seen := Full();
      if full {
        return false;
      }
      ghost var at: nat;
      ok, at := TryPush(value);
    }

    /** A third thread's gauge: head and tail are loaded one after the other while both sides run on. */
    method Size() returns (size: nat)
      requires Valid()
      modifies this, cells
      ensures Valid() && old(head) <= head && old(tail) <= tail
      ensures old(tail) - head <= size <= tail - old(head)
    {
      var h := head;
      ConsumerSteps();
      ProducerSteps();
      var t := tail;
      size := if t >= h then t - h else 0;
      ConsumerSteps();
      ProducerSteps();
    }
  }
}
