/**
 View-based operational semantics of the C++ memory orders that the lock-free primitives use.

 Every location has an append-only history of messages, oldest first. A message carries, besides its
 value, the view its store published: for each location, the index of the oldest message that a thread
 which synchronizes with the store may still read. A thread owns three views:
   - cur: what it has observed; a load may return any message at or above cur,
   - acq: what it will have observed after its next acquire fence,
   - rel: what it had observed at its last release fence, published by its relaxed stores.
 Each location has one storing thread, so stores append in modification order. Release sequences are not
 modelled, which only adds behaviours: a reader may synchronize with less than the standard promises.
 */
module WeakMemory {

  datatype Msg<!L, V> = Msg(val: V, view: L -> nat)

  datatype Thread<!L> = Thread(cur: L -> nat, acq: L -> nat, rel: L -> nat)

  function Join<L>(u: L -> nat, v: L -> nat): L -> nat {
    l => if u(l) < v(l) then v(l) else u(l)
  }

  /** The view v advanced to message t of location x. */
  function Advance<L(==)>(v: L -> nat, x: L, t: nat): L -> nat {
    l => if l == x && v(l) < t then t else v(l)
  }

  function Start<L>(): Thread<L> {
    Thread(l => 0, l => 0, l => 0)
  }

  predicate CanLoad<L, V>(mem: L -> seq<Msg<L, V>>, th: Thread<L>, x: L, t: nat) {
    th.cur(x) <= t < |mem(x)|
  }

  function LoadRelaxed<L(==), V>(mem: L -> seq<Msg<L, V>>, th: Thread<L>, x: L, t: nat): Thread<L>
    requires CanLoad(mem, th, x, t)
  {
    th.(cur := Advance(th.cur, x, t), acq := Join(Advance(th.acq, x, t), mem(x)[t].view))
  }

  function LoadAcquire<L(==), V>(mem: L -> seq<Msg<L, V>>, th: Thread<L>, x: L, t: nat): Thread<L>
    requires CanLoad(mem, th, x, t)
  {
    th.(cur := Join(Advance(th.cur, x, t), mem(x)[t].view), acq := Join(Advance(th.acq, x, t), mem(x)[t].view))
  }

  function FenceAcquire<L>(th: Thread<L>): Thread<L> {
    th.(cur := th.acq)
  }

  function FenceRelease<L>(th: Thread<L>): Thread<L> {
    th.(rel := th.cur)
  }

  /** The storing thread after it appended a message to x. */
  function Stored<L(==), V>(mem: L -> seq<Msg<L, V>>, th: Thread<L>, x: L): Thread<L> {
    th.(cur := Advance(th.cur, x, |mem(x)|), acq := Advance(th.acq, x, |mem(x)|))
  }

  function StoreRelaxed<L(==), V>(mem: L -> seq<Msg<L, V>>, th: Thread<L>, x: L, v: V): L -> seq<Msg<L, V>> {
    Append(mem, x, Msg(v, Advance(th.rel, x, |mem(x)|)))
  }

  function StoreRelease<L(==), V>(mem: L -> seq<Msg<L, V>>, th: Thread<L>, x: L, v: V): L -> seq<Msg<L, V>> {
    Append(mem, x, Msg(v, Advance(th.cur, x, |mem(x)|)))
  }

  function Append<L(==), V>(mem: L -> seq<Msg<L, V>>, x: L, m: Msg<L, V>): L -> seq<Msg<L, V>> {
    l => if l == x then mem(l) + [m] else mem(l)
  }
}
