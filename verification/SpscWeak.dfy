/**
 SpscQueue (include/xmbase/concurrency/spsc_queue.hpp) under the view-based memory semantics: one producer, one
 consumer, one step per atomic access and per plain cell access.

 The cells are plain memory. Every cell has a bookkeeping location Mark(i) that the consumer writes when it
 reads the cell, so that a view also says which cell reads happen before it. A plain access is free of races
 when the accessing thread's view includes every conflicting access so far. Aux(i) are atomic counters of the
 program around the queue that the producer stores to and the consumer reads. Messages carry, as bookkeeping,
 the position they belong to plus one; for Head, Tail and Aux that is the stored count itself.
 */
module SpscWeak {
  import opened WeakMemory
  import Laps

  datatype Loc = Head | Tail | Cell(i: nat) | Mark(i: nat) | Aux(i: nat)

  datatype Val<T> = Val(tag: nat, x: T)

  type History<!T> = seq<Msg<Loc, Val<T>>>

  type Mem<!T> = Loc -> History<T>

  datatype PPc<T> =
    | PIdle
    | PTail(value: T, tail: nat)
    | PRoom(value: T, tail: nat, head: nat)
    | PWritten(value: T, tail: nat)

  datatype CPc<T> =
    | CIdle
    | CHead(head: nat)
    | CFound(head: nat)
    | CRead(head: nat, x: T)

  /**
   pushed: the values of every successful TryPush. popped: the values every successful TryPop copied out.
   room: Full returned false and no push has been published since.
   */
  datatype State<!T> = State(mem: Mem<T>, p: Thread<Loc>, c: Thread<Loc>, ppc: PPc<T>, cpc: CPc<T>,
                             pushed: seq<T>, popped: seq<T>, room: bool)

  /** Storage: what a fresh cell holds. */
  datatype Cfg<T> = Cfg(cap: nat, blank: T)

  /** The constructor: a declared depth of zero makes one cell. */
  function Construct<T>(depth: nat, blank: T): (g: Cfg<T>)
    ensures g.cap >= 1
  {
    Cfg(if depth == 0 then 1 else depth, blank)
  }

  datatype Event<T> =
    | PushLoadTail(value: T, t: nat)
    | PushLoadHead(t: nat)
    | WriteCell
    | StoreTail
    | CheckFull(t: nat)
    | PopLoadHead(t: nat)
    | PopLoadTail(t: nat)
    | ReadCell(t: nat)
    | StoreHead
    | Announce(i: nat)
    | Listen(i: nat, t: nat)
    | PeekHead(t: nat)
    | PeekTail(t: nat)

  function Init<T>(g: Cfg<T>): State<T> {
    State(l => [Msg(Val(0, g.blank), k => 0)], Start(), Start(), PIdle, CIdle, [], [], false)
  }

  predicate CanStep<T>(g: Cfg<T>, s: State<T>, e: Event<T>) {
    g.cap >= 1 &&
    match e
    case PushLoadTail(value, t) => s.ppc.PIdle? && CanLoad(s.mem, s.p, Tail, t)
    case PushLoadHead(t) => s.ppc.PTail? && CanLoad(s.mem, s.p, Head, t)
    case WriteCell => s.ppc.PRoom?
    case StoreTail => s.ppc.PWritten?
    case CheckFull(t) => s.ppc.PIdle? && CanLoad(s.mem, s.p, Head, t) && s.p.cur(Tail) < |s.mem(Tail)|
    case PopLoadHead(t) => s.cpc.CIdle? && CanLoad(s.mem, s.c, Head, t)
    case PopLoadTail(t) => s.cpc.CHead? && CanLoad(s.mem, s.c, Tail, t)
    case ReadCell(t) => s.cpc.CFound? && CanLoad(s.mem, s.c, Cell(s.cpc.head % g.cap), t)
    case StoreHead => s.cpc.CRead?
    case Announce(_) => s.ppc.PIdle?
    case Listen(i, t) => s.cpc.CIdle? && CanLoad(s.mem, s.c, Aux(i), t)
    case PeekHead(t) => s.cpc.CIdle? && CanLoad(s.mem, s.c, Head, t)
    case PeekTail(t) => s.cpc.CIdle? && CanLoad(s.mem, s.c, Tail, t)
  }

  /** A plain store synchronizes with nobody. */
  function PlainStore<T>(mem: Mem<T>, x: Loc, v: Val<T>): Mem<T> {
    Append(mem, x, Msg(v, l => 0))
  }

  function Step<T>(g: Cfg<T>, s: State<T>, e: Event<T>): State<T>
    requires CanStep(g, s, e)
  {
    match e
    case PushLoadTail(value, t) =>
      s.(p := LoadRelaxed(s.mem, s.p, Tail, t), ppc := PTail(value, s.mem(Tail)[t].val.tag))
    case PushLoadHead(t) =>
      var head := s.mem(Head)[t].val.tag;
      s.(p := LoadAcquire(s.mem, s.p, Head, t),
      ppc := if s.ppc.tail - head >= g.cap then PIdle else PRoom(s.ppc.value, s.ppc.tail, head))
    case WriteCell =>
      var x := Cell(s.ppc.tail % g.cap);
      s.(mem := PlainStore(s.mem, x, Val(s.ppc.tail + 1, s.ppc.value)),
      p := Stored(s.mem, s.p, x),
      ppc := PWritten(s.ppc.value, s.ppc.tail))
    case StoreTail =>
      s.(mem := StoreRelease(s.mem, s.p, Tail, Val(s.ppc.tail + 1, g.blank)),
      p := Stored(s.mem, s.p, Tail),
      pushed := s.pushed + [s.ppc.value],
      ppc := PIdle, room := false)
    case CheckFull(t) =>
      s.(p := LoadAcquire(s.mem, s.p, Head, t),
      room := s.mem(Tail)[s.p.cur(Tail)].val.tag - s.mem(Head)[t].val.tag < g.cap)
    case PopLoadHead(t) =>
      s.(c := LoadRelaxed(s.mem, s.c, Head, t), cpc := CHead(s.mem(Head)[t].val.tag))
    case PopLoadTail(t) =>
      s.(c := LoadAcquire(s.mem, s.c, Tail, t),
      cpc := if s.cpc.head == s.mem(Tail)[t].val.tag then CIdle else CFound(s.cpc.head))
    case ReadCell(t) =>
      var x := Cell(s.cpc.head % g.cap);
      var mark := Mark(s.cpc.head % g.cap);
      s.(mem := PlainStore(s.mem, mark, Val(s.cpc.head + 1, g.blank)),
      c := Stored(s.mem, LoadRelaxed(s.mem, s.c, x, t), mark),
      cpc := CRead(s.cpc.head, s.mem(x)[t].val.x))
    case StoreHead =>
      s.(mem := StoreRelease(s.mem, s.c, Head, Val(s.cpc.head + 1, g.blank)),
      c := Stored(s.mem, s.c, Head),
      popped := s.popped + [s.cpc.x],
      cpc := CIdle)
    case Announce(i) =>
      s.(mem := StoreRelease(s.mem, s.p, Aux(i), Val(|s.mem(Aux(i))|, g.blank)), p := Stored(s.mem, s.p, Aux(i)))
    case Listen(i, t) => s.(c := LoadAcquire(s.mem, s.c, Aux(i), t))
    case PeekHead(t) => s.(c := LoadRelaxed(s.mem, s.c, Head, t))
    case PeekTail(t) => s.(c := LoadRelaxed(s.mem, s.c, Tail, t))
  }

  ghost predicate Run<T(!new)>(g: Cfg<T>, s: State<T>, es: seq<Event<T>>, t: State<T>)
    decreases |es|
  {
    if |es| == 0 then s == t else
      CanStep(g, s, es[0]) && Run(g, Step(g, s, es[0]), es[1..], t)
  }

  // ---- the invariant ----

  function Last<T>(h: History<T>): nat {
    if |h| > 0 then h[|h| - 1].val.tag else 0
  }

  function TagAt<T>(h: History<T>, t: nat): nat {
    if t < |h| then h[t].val.tag else 0
  }

  /** The locations whose messages are numbered by the count they store. */
  predicate Counts(x: Loc) {
    x.Head? || x.Tail? || x.Aux?
  }

  ghost predicate HistoryOk<T(!new)>(x: Loc, h: History<T>) {
    && |h| >= 1 && h[0].val.tag == 0
    && (forall t, u | 0 <= t < u < |h| :: h[t].val.tag < h[u].val.tag)
    && (Counts(x) ==> forall t | 0 <= t < |h| :: h[t].val.tag == t)
  }

  /** The view includes the write of every position below n. */
  ghost predicate SeesWrites<T(!new)>(g: Cfg<T>, mem: Mem<T>, view: Loc -> nat, n: nat)
    requires g.cap >= 1
  {
    forall q | 0 <= q < n :: TagAt(mem(Cell(q % g.cap)), view(Cell(q % g.cap))) > q
  }

  /** The view includes the read of every position below n. */
  ghost predicate SeesReads<T(!new)>(g: Cfg<T>, mem: Mem<T>, view: Loc -> nat, n: nat)
    requires g.cap >= 1
  {
    forall q | 0 <= q < n :: TagAt(mem(Mark(q % g.cap)), view(Mark(q % g.cap))) > q
  }

  ghost predicate InRange<T(!new)>(mem: Mem<T>, view: Loc -> nat) {
    forall x :: view(x) < |mem(x)|
  }

  function Written<T>(s: State<T>): nat {
    |s.pushed| + if s.ppc.PWritten? then 1 else 0
  }

  function Marked<T>(s: State<T>): nat {
    |s.popped| + if s.cpc.CRead? then 1 else 0
  }

  /** The value of a written position. */
  ghost predicate Holds<T>(s: State<T>, q: nat, x: T) {
    if q < |s.pushed| then x == s.pushed[q] else s.ppc.PWritten? && q == |s.pushed| && x == s.ppc.value
  }

  ghost predicate MsgOk<T(!new)>(g: Cfg<T>, s: State<T>, x: Loc, m: Msg<Loc, Val<T>>)
    requires g.cap >= 1
  {
    match x
    case Cell(i) => m.val.tag > 0 ==> (m.val.tag - 1) % g.cap == i && m.val.tag <= Written(s) && Holds(s, m.val.tag - 1, m.val.x)
    case Mark(i) => m.val.tag > 0 ==> (m.val.tag - 1) % g.cap == i && m.val.tag <= Marked(s)
    case Tail => SeesWrites(g, s.mem, m.view, m.val.tag) && m.view(Tail) <= m.val.tag
    case Head => SeesReads(g, s.mem, m.view, m.val.tag)
    case Aux(_) => true
  }

  ghost predicate MemInv<T(!new)>(g: Cfg<T>, s: State<T>) {
    && g.cap >= 1
    && (forall x {:trigger HistoryOk(x, s.mem(x))} :: HistoryOk(x, s.mem(x)))
    && (forall x, t {:trigger MsgOk(g, s, x, s.mem(x)[t])} | 0 <= t < |s.mem(x)| ::
          MsgOk(g, s, x, s.mem(x)[t]) && InRange(s.mem, s.mem(x)[t].view))
    && |s.mem(Head)| == |s.popped| + 1 && |s.mem(Tail)| == |s.pushed| + 1
    && (forall q | 0 <= q < Written(s) :: Last(s.mem(Cell(q % g.cap))) > q)
    && (forall q | 0 <= q < Marked(s) :: Last(s.mem(Mark(q % g.cap))) > q)
  }

  ghost predicate Newest<T(!new)>(s: State<T>, th: Thread<Loc>, x: Loc) {
    th.cur(x) == |s.mem(x)| - 1
  }

  ghost predicate ProducerInv<T(!new)>(g: Cfg<T>, s: State<T>)
    requires g.cap >= 1
  {
    && InRange(s.mem, s.p.cur)
    && Newest(s, s.p, Tail) && (forall i :: Newest(s, s.p, Cell(i))) && (forall i :: Newest(s, s.p, Aux(i)))
    && Written(s) - s.p.cur(Head) <= g.cap
    && (s.room ==> |s.pushed| - s.p.cur(Head) < g.cap)
    && match s.ppc
       case PIdle => true
       case PTail(_, tail) => tail == |s.pushed|
       case PRoom(_, tail, head) =>
         tail == |s.pushed| && head <= s.p.cur(Head) && tail - head < g.cap && SeesReads(g, s.mem, s.p.cur, head)
       case PWritten(_, tail) => tail == |s.pushed|
  }

  ghost predicate ConsumerInv<T(!new)>(g: Cfg<T>, s: State<T>)
    requires g.cap >= 1
  {
    && InRange(s.mem, s.c.cur)
    && Newest(s, s.c, Head) && (forall i :: Newest(s, s.c, Mark(i)))
    && Marked(s) <= s.c.cur(Tail)
    && match s.cpc
       case CIdle => true
       case CHead(head) => head == |s.popped|
       case CFound(head) =>
         head == |s.popped| < s.c.cur(Tail) && SeesWrites(g, s.mem, s.c.cur, head + 1)
       case CRead(head, x) => head == |s.popped| < |s.pushed| && x == s.pushed[head]
  }

  ghost predicate QueueInv<T(!new)>(g: Cfg<T>, s: State<T>) {
    && s.popped <= s.pushed
    && Written(s) <= |s.popped| + g.cap
  }

  ghost predicate Inv<T(!new)>(g: Cfg<T>, s: State<T>) {
    MemInv(g, s) && ProducerInv(g, s) && ConsumerInv(g, s) && QueueInv(g, s)
  }

  // ---- race freedom ----

  lemma LastOf<T(!new)>(g: Cfg<T>, s: State<T>, x: Loc)
    requires MemInv(g, s)
    ensures HistoryOk(x, s.mem(x)) && |s.mem(x)| >= 1 && Last(s.mem(x)) == s.mem(x)[|s.mem(x)| - 1].val.tag
    ensures MsgOk(g, s, x, s.mem(x)[|s.mem(x)| - 1])
  {
  }

  /** A view whose message in h has the tag of the newest is at the newest. */
  lemma SameTag<T(!new)>(x: Loc, h: History<T>, t: nat)
    requires HistoryOk(x, h) && t < |h| && h[t].val.tag >= Last(h)
    ensures t == |h| - 1
  {
  }

  /** (Q4)/(Q3): when the consumer is about to read a cell, its view includes every write of it, and it reads what was pushed. */
  lemma ReadIsOrdered<T(!new)>(g: Cfg<T>, s: State<T>)
    requires Inv(g, s) && s.cpc.CFound?
    ensures Newest(s, s.c, Cell(s.cpc.head % g.cap))
    ensures s.mem(Cell(s.cpc.head % g.cap))[s.c.cur(Cell(s.cpc.head % g.cap))].val == Val(s.cpc.head + 1, s.pushed[s.cpc.head])
  {
    var h := s.cpc.head;
    var x := Cell(h % g.cap);
    LastOf(g, s, x);
    var last := Last(s.mem(x));
    assert TagAt(s.mem(x), s.c.cur(x)) > h;
    assert last > h;
    if last > h + 1 {
      Laps.SameCellApart(g.cap, h, last - 1);
      assert false;
    }
    SameTag(x, s.mem(x), s.c.cur(x));
  }

  /** (Q1)/(Q2): when the producer is about to write a cell, its view includes every read of it. */
  lemma WriteIsOrdered<T(!new)>(g: Cfg<T>, s: State<T>)
    requires Inv(g, s) && s.ppc.PRoom?
    ensures Newest(s, s.p, Mark(s.ppc.tail % g.cap)) && Newest(s, s.p, Cell(s.ppc.tail % g.cap))
    ensures Last(s.mem(Cell(s.ppc.tail % g.cap))) <= s.ppc.tail
  {
    var tail := s.ppc.tail;
    var x := Mark(tail % g.cap);
    LastOf(g, s, x);
    LastOf(g, s, Cell(tail % g.cap));
    var last := Last(s.mem(x));
    if last > 0 {
      Laps.SameCellApart(g.cap, last - 1, tail);
      assert last - 1 < s.ppc.head;
      assert TagAt(s.mem(x), s.p.cur(x)) > last - 1;
    }
    SameTag(x, s.mem(x), s.p.cur(x));
  }

  // ---- every step keeps the invariant ----

  ghost predicate Grows<T(!new)>(mem: Mem<T>, mem2: Mem<T>) {
    forall x {:trigger mem2(x)} :: mem(x) <= mem2(x)
  }

  lemma SeesGrow<T(!new)>(g: Cfg<T>, mem: Mem<T>, mem2: Mem<T>, view: Loc -> nat, n: nat)
    requires g.cap >= 1 && Grows(mem, mem2) && InRange(mem, view)
    ensures InRange(mem2, view)
    ensures SeesWrites(g, mem, view, n) ==> SeesWrites(g, mem2, view, n)
    ensures SeesReads(g, mem, view, n) ==> SeesReads(g, mem2, view, n)
  {
    assert forall x :: view(x) < |mem2(x)| by {
      forall x ensures view(x) < |mem2(x)| { assert mem(x) <= mem2(x) && view(x) < |mem(x)|; }
    }
    forall q: nat ensures TagAt(mem2(Cell(q % g.cap)), view(Cell(q % g.cap))) == TagAt(mem(Cell(q % g.cap)), view(Cell(q % g.cap))) {
      assert mem(Cell(q % g.cap)) <= mem2(Cell(q % g.cap)) && view(Cell(q % g.cap)) < |mem(Cell(q % g.cap))|;
    }
    forall q: nat ensures TagAt(mem2(Mark(q % g.cap)), view(Mark(q % g.cap))) == TagAt(mem(Mark(q % g.cap)), view(Mark(q % g.cap))) {
      assert mem(Mark(q % g.cap)) <= mem2(Mark(q % g.cap)) && view(Mark(q % g.cap)) < |mem(Mark(q % g.cap))|;
    }
  }

  /** Message m, appended to x, is the first message of the new position of x. */
  ghost predicate Fits<T(!new)>(g: Cfg<T>, s: State<T>, s2: State<T>, x: Loc, m: Msg<Loc, Val<T>>)
    requires g.cap >= 1
  {
    && s2.mem == Append(s.mem, x, m)
    && Last(s.mem(x)) < m.val.tag
    && (Counts(x) ==> m.val.tag == |s.mem(x)|)
    && InRange(s2.mem, m.view) && MsgOk(g, s2, x, m)
    && s.popped <= s2.popped && s.pushed <= s2.pushed && s2.popped <= s2.pushed
    && Written(s) <= Written(s2) && Marked(s) <= Marked(s2)
    && (forall q, v | Holds(s, q, v) :: Holds(s2, q, v))
  }

  lemma HistoryGrows<T(!new)>(x: Loc, h: History<T>, m: Msg<Loc, Val<T>>)
    requires HistoryOk(x, h) && Last(h) < m.val.tag && (Counts(x) ==> m.val.tag == |h|)
    ensures HistoryOk(x, h + [m])
  {
  }

  lemma MsgGrows<T(!new)>(g: Cfg<T>, s: State<T>, s2: State<T>, x: Loc, m: Msg<Loc, Val<T>>)
    requires MsgOkStays(g, s, s2) && MsgOk(g, s, x, m) && InRange(s.mem, m.view)
    ensures MsgOk(g, s2, x, m) && InRange(s2.mem, m.view)
  {
    SeesGrow(g, s.mem, s2.mem, m.view, m.val.tag);
  }

  ghost predicate MsgOkStays<T(!new)>(g: Cfg<T>, s: State<T>, s2: State<T>) {
    && g.cap >= 1 && Grows(s.mem, s2.mem)
    && Written(s) <= Written(s2) && Marked(s) <= Marked(s2)
    && (forall q, v | Holds(s, q, v) :: Holds(s2, q, v))
  }

  lemma AppendKeepsMessages<T(!new)>(g: Cfg<T>, s: State<T>, s2: State<T>, x: Loc, m: Msg<Loc, Val<T>>)
    requires MemInv(g, s) && Fits(g, s, s2, x, m)
    ensures forall y {:trigger HistoryOk(y, s2.mem(y))} :: HistoryOk(y, s2.mem(y))
    ensures forall y, t {:trigger MsgOk(g, s2, y, s2.mem(y)[t])} | 0 <= t < |s2.mem(y)| ::
          MsgOk(g, s2, y, s2.mem(y)[t]) && InRange(s2.mem, s2.mem(y)[t].view)
    ensures Grows(s.mem, s2.mem)
  {
    assert Grows(s.mem, s2.mem);
    forall y ensures HistoryOk(y, s2.mem(y)) {
      assert HistoryOk(y, s.mem(y));
      if y == x { HistoryGrows(x, s.mem(x), m); }
    }
    forall y, t | 0 <= t < |s2.mem(y)| ensures MsgOk(g, s2, y, s2.mem(y)[t]) && InRange(s2.mem, s2.mem(y)[t].view) {
      if t < |s.mem(y)| {
        assert s2.mem(y)[t] == s.mem(y)[t];
        assert MsgOk(g, s, y, s.mem(y)[t]);
        MsgGrows(g, s, s2, y, s.mem(y)[t]);
      }
    }
  }

  lemma WriteCellKeepsMem<T(!new)>(g: Cfg<T>, s: State<T>)
    requires Inv(g, s) && s.ppc.PRoom?
    ensures MemInv(g, Step(g, s, WriteCell)) && Grows(s.mem, Step(g, s, WriteCell).mem)
  {
    var s2 := Step(g, s, WriteCell);
    var x := Cell(s.ppc.tail % g.cap);
    var m := Msg(Val(s.ppc.tail + 1, s.ppc.value), (l: Loc) => 0);
    WriteIsOrdered(g, s);
    forall l ensures |s2.mem(l)| >= 1 { LastOf(g, s, l); }
    assert Fits(g, s, s2, x, m);
    AppendKeepsMessages(g, s, s2, x, m);
  }

  lemma ReadMarks<T(!new)>(g: Cfg<T>, s: State<T>, t: nat)
    requires Inv(g, s) && CanStep(g, s, ReadCell(t))
    ensures var x := Mark(s.cpc.head % g.cap);
            Fits(g, s, Step(g, s, ReadCell(t)), x, Msg(Val(s.cpc.head + 1, g.blank), (l: Loc) => 0))
  {
    var s2 := Step(g, s, ReadCell(t));
    LastOf(g, s, Mark(s.cpc.head % g.cap));
    forall l ensures |s2.mem(l)| >= 1 { LastOf(g, s, l); }
  }

  lemma AllMarked<T(!new)>(cap: nat, mem: Mem<T>, head: nat, m: Msg<Loc, Val<T>>)
    requires cap >= 1 && m.val.tag == head + 1
    requires forall q | 0 <= q < head :: Last(mem(Mark(q % cap))) > q
    ensures forall q | 0 <= q < head + 1 :: Last(Append(mem, Mark(head % cap), m)(Mark(q % cap))) > q
  {
  }

  lemma ReadCellKeepsMem<T(!new)>(g: Cfg<T>, s: State<T>, t: nat)
    requires Inv(g, s) && CanStep(g, s, ReadCell(t))
    ensures MemInv(g, Step(g, s, ReadCell(t))) && Grows(s.mem, Step(g, s, ReadCell(t)).mem)
  {
    var s2 := Step(g, s, ReadCell(t));
    var m := Msg(Val(s.cpc.head + 1, g.blank), (l: Loc) => 0);
    ReadMarks(g, s, t);
    AppendKeepsMessages(g, s, s2, Mark(s.cpc.head % g.cap), m);
    AllMarked(g.cap, s.mem, s.cpc.head, m);
  }

  lemma StoreTailKeepsMem<T(!new)>(g: Cfg<T>, s: State<T>)
    requires Inv(g, s) && s.ppc.PWritten?
    ensures MemInv(g, Step(g, s, StoreTail)) && Grows(s.mem, Step(g, s, StoreTail).mem)
  {
    var s2 := Step(g, s, StoreTail);
    var m := Msg(Val(s.ppc.tail + 1, g.blank), Advance(s.p.cur, Tail, |s.mem(Tail)|));
    LastOf(g, s, Tail);
    forall q | 0 <= q < s.ppc.tail + 1 ensures TagAt(s2.mem(Cell(q % g.cap)), m.view(Cell(q % g.cap))) > q {
      LastOf(g, s, Cell(q % g.cap));
      assert Newest(s, s.p, Cell(q % g.cap));
    }
    assert Fits(g, s, s2, Tail, m);
    AppendKeepsMessages(g, s, s2, Tail, m);
  }

  lemma StoreHeadKeepsMem<T(!new)>(g: Cfg<T>, s: State<T>)
    requires Inv(g, s) && s.cpc.CRead?
    ensures MemInv(g, Step(g, s, StoreHead)) && Grows(s.mem, Step(g, s, StoreHead).mem)
  {
    var s2 := Step(g, s, StoreHead);
    var m := Msg(Val(s.cpc.head + 1, g.blank), Advance(s.c.cur, Head, |s.mem(Head)|));
    LastOf(g, s, Head);
    forall q | 0 <= q < s.cpc.head + 1 ensures TagAt(s2.mem(Mark(q % g.cap)), m.view(Mark(q % g.cap))) > q {
      LastOf(g, s, Mark(q % g.cap));
      assert Newest(s, s.c, Mark(q % g.cap));
    }
    assert Fits(g, s, s2, Head, m);
    AppendKeepsMessages(g, s, s2, Head, m);
  }

  lemma AnnounceKeepsMem<T(!new)>(g: Cfg<T>, s: State<T>, i: nat)
    requires Inv(g, s) && s.ppc.PIdle?
    ensures MemInv(g, Step(g, s, Announce(i))) && Grows(s.mem, Step(g, s, Announce(i)).mem)
  {
    var s2 := Step(g, s, Announce(i));
    var m := Msg(Val(|s.mem(Aux(i))|, g.blank), Advance(s.p.cur, Aux(i), |s.mem(Aux(i))|));
    LastOf(g, s, Aux(i));
    assert Fits(g, s, s2, Aux(i), m);
    AppendKeepsMessages(g, s, s2, Aux(i), m);
  }

  lemma StepKeepsMem<T(!new)>(g: Cfg<T>, s: State<T>, e: Event<T>)
    requires Inv(g, s) && CanStep(g, s, e)
    ensures MemInv(g, Step(g, s, e)) && Grows(s.mem, Step(g, s, e).mem)
  {
    match e
    case WriteCell => WriteCellKeepsMem(g, s);
    case ReadCell(t) => ReadCellKeepsMem(g, s, t);
    case StoreTail => StoreTailKeepsMem(g, s);
    case StoreHead => StoreHeadKeepsMem(g, s);
    case Announce(i) => AnnounceKeepsMem(g, s, i);
    case _ => LoadKeepsMem(g, s, e);
  }

  lemma LoadKeepsMem<T(!new)>(g: Cfg<T>, s: State<T>, e: Event<T>)
    requires Inv(g, s) && CanStep(g, s, e) && !(e.WriteCell? || e.ReadCell? || e.StoreTail? || e.StoreHead? || e.Announce?)
    ensures MemInv(g, Step(g, s, e)) && Grows(s.mem, Step(g, s, e).mem)
  {
    var s2 := Step(g, s, e);
    forall y, t | 0 <= t < |s2.mem(y)| ensures MsgOk(g, s2, y, s2.mem(y)[t]) && InRange(s2.mem, s2.mem(y)[t].view) {
      assert MsgOk(g, s, y, s.mem(y)[t]);
      MsgGrows(g, s, s2, y, s.mem(y)[t]);
    }
  }

  predicate ByProducer<T>(e: Event<T>) {
    e.PushLoadTail? || e.PushLoadHead? || e.WriteCell? || e.StoreTail? || e.CheckFull? || e.Announce?
  }

  /** Joining the view of a loaded message keeps the view in range and adds what the message carries. */
  lemma AcquireSees<T(!new)>(g: Cfg<T>, s: State<T>, th: Thread<Loc>, x: Loc, t: nat)
    requires MemInv(g, s) && InRange(s.mem, th.cur) && CanLoad(s.mem, th, x, t)
    ensures var th2 := LoadAcquire(s.mem, th, x, t);
            && InRange(s.mem, th2.cur)
            && (forall l :: th.cur(l) <= th2.cur(l))
            && (forall l :: Newest(s, th, l) ==> Newest(s, th2, l))
            && th2.cur(x) >= t
            && (x == Head ==> SeesReads(g, s.mem, th2.cur, s.mem(x)[t].val.tag))
            && (x == Tail ==> SeesWrites(g, s.mem, th2.cur, s.mem(x)[t].val.tag))
  {
    var m := s.mem(x)[t];
    var th2 := LoadAcquire(s.mem, th, x, t);
    assert MsgOk(g, s, x, m) && InRange(s.mem, m.view);
    forall l ensures th.cur(l) <= th2.cur(l) < |s.mem(l)| && m.view(l) <= th2.cur(l) {
      assert th.cur(l) < |s.mem(l)| && m.view(l) < |s.mem(l)|;
    }
    if x == Head {
      forall q | 0 <= q < m.val.tag ensures TagAt(s.mem(Mark(q % g.cap)), th2.cur(Mark(q % g.cap))) > q {
        TagsUp(g, s, Mark(q % g.cap), m.view(Mark(q % g.cap)), th2.cur(Mark(q % g.cap)));
      }
    }
    if x == Tail {
      forall q | 0 <= q < m.val.tag ensures TagAt(s.mem(Cell(q % g.cap)), th2.cur(Cell(q % g.cap))) > q {
        TagsUp(g, s, Cell(q % g.cap), m.view(Cell(q % g.cap)), th2.cur(Cell(q % g.cap)));
      }
    }
  }

  lemma TagsUp<T(!new)>(g: Cfg<T>, s: State<T>, x: Loc, t: nat, u: nat)
    requires MemInv(g, s) && t <= u < |s.mem(x)|
    ensures TagAt(s.mem(x), t) <= TagAt(s.mem(x), u)
  {
    LastOf(g, s, x);
  }

  lemma PushLoadKeepsProducer<T(!new)>(g: Cfg<T>, s: State<T>, e: Event<T>)
    requires Inv(g, s) && CanStep(g, s, e) && (e.PushLoadTail? || e.PushLoadHead? || e.CheckFull?)
    ensures ProducerInv(g, Step(g, s, e))
  {
    LastOf(g, s, Head);
    LastOf(g, s, Tail);
    if !e.PushLoadTail? { AcquireSees(g, s, s.p, Head, e.t); }
  }

  lemma PushStoreKeepsProducer<T(!new)>(g: Cfg<T>, s: State<T>, e: Event<T>)
    requires Inv(g, s) && CanStep(g, s, e) && (e.WriteCell? || e.StoreTail? || e.Announce?)
    ensures ProducerInv(g, Step(g, s, e))
  {
    LastOf(g, s, Tail);
    SeesGrow(g, s.mem, Step(g, s, e).mem, s.p.cur, 0);
  }

  lemma PushKeepsProducer<T(!new)>(g: Cfg<T>, s: State<T>, e: Event<T>)
    requires Inv(g, s) && CanStep(g, s, e) && ByProducer(e)
    ensures ProducerInv(g, Step(g, s, e))
  {
    if e.PushLoadTail? || e.PushLoadHead? || e.CheckFull? {
      PushLoadKeepsProducer(g, s, e);
    } else {
      PushStoreKeepsProducer(g, s, e);
    }
  }

  lemma PushKeepsConsumer<T(!new)>(g: Cfg<T>, s: State<T>, e: Event<T>)
    requires Inv(g, s) && CanStep(g, s, e) && ByProducer(e) && Grows(s.mem, Step(g, s, e).mem)
    ensures ConsumerInv(g, Step(g, s, e))
  {
    SeesGrow(g, s.mem, Step(g, s, e).mem, s.c.cur, |s.popped| + 1);
  }

  lemma PopStoreKeepsProducer<T(!new)>(g: Cfg<T>, s: State<T>, e: Event<T>)
    requires Inv(g, s) && CanStep(g, s, e) && (e.ReadCell? || e.StoreHead?) && Grows(s.mem, Step(g, s, e).mem)
    ensures ProducerInv(g, Step(g, s, e))
  {
    SeesGrow(g, s.mem, Step(g, s, e).mem, s.p.cur, if s.ppc.PRoom? then s.ppc.head else 0);
  }

  lemma PopKeepsProducer<T(!new)>(g: Cfg<T>, s: State<T>, e: Event<T>)
    requires Inv(g, s) && CanStep(g, s, e) && !ByProducer(e) && Grows(s.mem, Step(g, s, e).mem)
    ensures ProducerInv(g, Step(g, s, e))
  {
    if e.ReadCell? || e.StoreHead? {
      PopStoreKeepsProducer(g, s, e);
    } else {
      assert Step(g, s, e).mem == s.mem && Step(g, s, e).p == s.p;
    }
  }

  lemma PopLoadKeepsConsumer<T(!new)>(g: Cfg<T>, s: State<T>, e: Event<T>)
    requires Inv(g, s) && CanStep(g, s, e) && (e.PopLoadHead? || e.PopLoadTail?)
    ensures ConsumerInv(g, Step(g, s, e))
  {
    LastOf(g, s, Head);
    LastOf(g, s, Tail);
    if e.PopLoadTail? { AcquireSees(g, s, s.c, Tail, e.t); }
  }

  lemma ListenKeepsConsumer<T(!new)>(g: Cfg<T>, s: State<T>, e: Event<T>)
    requires Inv(g, s) && CanStep(g, s, e) && (e.Listen? || e.PeekHead? || e.PeekTail?)
    ensures ConsumerInv(g, Step(g, s, e))
  {
    if e.Listen? { AcquireSees(g, s, s.c, Aux(e.i), e.t); }
  }

  lemma ReadCellKeepsConsumer<T(!new)>(g: Cfg<T>, s: State<T>, t: nat)
    requires Inv(g, s) && CanStep(g, s, ReadCell(t)) && Grows(s.mem, Step(g, s, ReadCell(t)).mem)
    ensures ConsumerInv(g, Step(g, s, ReadCell(t)))
  {
    ReadIsOrdered(g, s);
    SeesGrow(g, s.mem, Step(g, s, ReadCell(t)).mem, s.c.cur, 0);
    assert s.c.cur(Tail) < |s.mem(Tail)|;
  }

  lemma StoreHeadKeepsConsumer<T(!new)>(g: Cfg<T>, s: State<T>)
    requires Inv(g, s) && s.cpc.CRead? && Grows(s.mem, Step(g, s, StoreHead).mem)
    ensures ConsumerInv(g, Step(g, s, StoreHead))
  {
    SeesGrow(g, s.mem, Step(g, s, StoreHead).mem, s.c.cur, 0);
  }

  lemma PopKeepsConsumer<T(!new)>(g: Cfg<T>, s: State<T>, e: Event<T>)
    requires Inv(g, s) && CanStep(g, s, e) && !ByProducer(e) && Grows(s.mem, Step(g, s, e).mem)
    ensures ConsumerInv(g, Step(g, s, e))
  {
    match e
    case ReadCell(t) => ReadCellKeepsConsumer(g, s, t);
    case StoreHead => StoreHeadKeepsConsumer(g, s);
    case Listen(_, _) => ListenKeepsConsumer(g, s, e);
    case PeekHead(_) => ListenKeepsConsumer(g, s, e);
    case PeekTail(_) => ListenKeepsConsumer(g, s, e);
    case _ => PopLoadKeepsConsumer(g, s, e);
  }

  lemma StepKeeps<T(!new)>(g: Cfg<T>, s: State<T>, e: Event<T>)
    requires Inv(g, s) && CanStep(g, s, e)
    ensures Inv(g, Step(g, s, e))
  {
    StepKeepsMem(g, s, e);
    if ByProducer(e) {
      PushKeepsProducer(g, s, e);
      PushKeepsConsumer(g, s, e);
    } else {
      PopKeepsProducer(g, s, e);
      PopKeepsConsumer(g, s, e);
    }
  }

  lemma InitInv<T(!new)>(g: Cfg<T>)
    requires g.cap >= 1
    ensures Inv(g, Init(g))
  {
    var s := Init(g);
    forall x, t | 0 <= t < |s.mem(x)| ensures MsgOk(g, s, x, s.mem(x)[t]) && InRange(s.mem, s.mem(x)[t].view) {
      assert s.mem(x)[t] == Msg(Val(0, g.blank), s.mem(x)[t].view);
    }
  }

  lemma {:induction false} RunKeeps<T(!new)>(g: Cfg<T>, s: State<T>, es: seq<Event<T>>, t: State<T>)
    requires Inv(g, s) && Run(g, s, es, t)
    ensures Inv(g, t)
    decreases |es|
  {
    if |es| > 0 {
      StepKeeps(g, s, es[0]);
      RunKeeps(g, Step(g, s, es[0]), es[1..], t);
    }
  }

  // ---- what every run satisfies ----

  /** The arguments of the accepted pushes of es, oldest first; arg is the argument of the push in progress. */
  function Accepted<T>(es: seq<Event<T>>, arg: T): seq<T> {
    if |es| == 0 then []
    else
      match es[0]
      case PushLoadTail(value, _) => Accepted(es[1..], value)
      case StoreTail => [arg] + Accepted(es[1..], arg)
      case _ => Accepted(es[1..], arg)
  }

  lemma OneStepAccepts<T(!new)>(g: Cfg<T>, s: State<T>, e: Event<T>, arg: T)
    requires CanStep(g, s, e) && (s.ppc.PIdle? || s.ppc.value == arg)
    ensures var (s2, arg2) := (Step(g, s, e), if e.PushLoadTail? then e.value else arg);
            && (s2.ppc.PIdle? || s2.ppc.value == arg2)
            && s2.pushed == s.pushed + if e.StoreTail? then [arg] else []
  {
  }

  /** What the queue accepts in a run is what the callers of TryPush passed. */
  lemma {:induction false} RunAccepts<T(!new)>(g: Cfg<T>, s: State<T>, es: seq<Event<T>>, t: State<T>, arg: T)
    requires Run(g, s, es, t) && (s.ppc.PIdle? || s.ppc.value == arg)
    ensures t.pushed == s.pushed + Accepted(es, arg)
    decreases |es|
  {
    if |es| > 0 {
      OneStepAccepts(g, s, es[0], arg);
      RunAccepts(g, Step(g, s, es[0]), es[1..], t, if es[0].PushLoadTail? then es[0].value else arg);
    }
  }

  /**
   The queue is a bounded FIFO: what was popped is a prefix of the arguments of the accepted pushes, and at most cap
   values are outstanding.
   */
  lemma RefinesFifo<T(!new)>(depth: nat, blank: T, es: seq<Event<T>>, s: State<T>)
    requires Run(Construct(depth, blank), Init(Construct(depth, blank)), es, s)
    ensures s.pushed == Accepted(es, blank) && s.popped <= s.pushed
    ensures |s.pushed| - |s.popped| <= if depth == 0 then 1 else depth
  {
    var g := Construct(depth, blank);
    InitInv(g);
    RunKeeps(g, Init(g), es, s);
    RunAccepts(g, Init(g), es, s, blank);
  }

  /** A plain access of cell i by th is ordered after every access of it that it conflicts with. */
  ghost predicate RaceFree<T(!new)>(s: State<T>, th: Thread<Loc>, i: nat, writes: bool) {
    Newest(s, th, Cell(i)) && (writes ==> Newest(s, th, Mark(i)))
  }

  lemma AccessesAreRaceFree<T(!new)>(depth: nat, blank: T, es: seq<Event<T>>, s: State<T>)
    requires Run(Construct(depth, blank), Init(Construct(depth, blank)), es, s)
    ensures var g := Construct(depth, blank);
            && (s.ppc.PRoom? ==> RaceFree(s, s.p, s.ppc.tail % g.cap, true))
            && (s.cpc.CFound? ==> RaceFree(s, s.c, s.cpc.head % g.cap, false))
            && (s.ppc.PRoom? && s.cpc.CFound? ==> s.ppc.tail % g.cap != s.cpc.head % g.cap)
  {
    var g := Construct(depth, blank);
    InitInv(g);
    RunKeeps(g, Init(g), es, s);
    if s.ppc.PRoom? { WriteIsOrdered(g, s); }
    if s.cpc.CFound? { ReadIsOrdered(g, s); }
    if s.ppc.PRoom? && s.cpc.CFound? && s.ppc.tail % g.cap == s.cpc.head % g.cap {
      Laps.SameCellApart(g.cap, s.cpc.head, s.ppc.tail);
    }
  }

  /** What a load of the tail shows of the tail is the message loaded. */
  lemma TailShowsItself<T(!new)>(g: Cfg<T>, s: State<T>, t: nat)
    requires Inv(g, s) && CanStep(g, s, PopLoadTail(t))
    ensures s.mem(Tail)[t].val.tag == t
    ensures LoadAcquire(s.mem, s.c, Tail, t).cur(Tail) == t
  {
    LastOf(g, s, Tail);
    assert MsgOk(g, s, Tail, s.mem(Tail)[t]);
  }

  /** Whatever message the consumer reads from a cell, it copies out the oldest outstanding value, untorn. */
  lemma PopReturnsOldest<T(!new)>(g: Cfg<T>, es: seq<Event<T>>, s: State<T>, t: nat)
    requires g.cap >= 1 && Run(g, Init(g), es, s) && CanStep(g, s, ReadCell(t))
    ensures |s.popped| < |s.pushed|
    ensures Step(g, s, ReadCell(t)).cpc == CRead(|s.popped|, s.pushed[|s.popped|])
  {
    InitInv(g);
    RunKeeps(g, Init(g), es, s);
    ReadIsOrdered(g, s);
  }

  /** A push is refused exactly if the head it loaded leaves cap values outstanding. */
  lemma RefusedOnlyWhenFull<T(!new)>(g: Cfg<T>, es: seq<Event<T>>, s: State<T>, t: nat)
    requires g.cap >= 1 && Run(g, Init(g), es, s) && CanStep(g, s, PushLoadHead(t))
    ensures t <= |s.popped|
    ensures Step(g, s, PushLoadHead(t)).ppc.PIdle? <==> |s.pushed| - t == g.cap
  {
    InitInv(g);
    RunKeeps(g, Init(g), es, s);
    LastOf(g, s, Head);
  }

  /** A pop fails exactly if the tail it loaded, which is all that it has seen of the tail, is its head. */
  lemma FailsOnlyWhenSeenEmpty<T(!new)>(g: Cfg<T>, es: seq<Event<T>>, s: State<T>, t: nat)
    requires g.cap >= 1 && Run(g, Init(g), es, s) && CanStep(g, s, PopLoadTail(t))
    ensures |s.popped| <= t <= |s.pushed|
    ensures Step(g, s, PopLoadTail(t)).cpc.CIdle? <==> t == |s.popped|
    ensures Step(g, s, PopLoadTail(t)).cpc.CIdle? ==> Step(g, s, PopLoadTail(t)).c.cur(Tail) == |s.popped|
  {
    InitInv(g);
    RunKeeps(g, Init(g), es, s);
    LastOf(g, s, Tail);
    TailShowsItself(g, s, t);
  }

  /** Full answers no exactly if the head it loaded leaves room. */
  lemma FullIsExact<T(!new)>(g: Cfg<T>, es: seq<Event<T>>, s: State<T>, t: nat)
    requires g.cap >= 1 && Run(g, Init(g), es, s) && CanStep(g, s, CheckFull(t))
    ensures t <= |s.popped| && (Step(g, s, CheckFull(t)).room <==> |s.pushed| - t < g.cap)
  {
    InitInv(g);
    RunKeeps(g, Init(g), es, s);
    LastOf(g, s, Head);
    LastOf(g, s, Tail);
  }

  /** Neither side ever blocks: each can take its next step, whatever the other does. */
  lemma NeitherSideBlocks<T(!new)>(g: Cfg<T>, es: seq<Event<T>>, s: State<T>, value: T) returns (push: Event<T>, pop: Event<T>)
    requires g.cap >= 1 && Run(g, Init(g), es, s)
    ensures CanStep(g, s, push) && (push.PushLoadTail? || push.PushLoadHead? || push.WriteCell? || push.StoreTail?)
    ensures s.ppc.PIdle? ==> push.PushLoadTail? && push.value == value
    ensures CanStep(g, s, pop) && (pop.PopLoadHead? || pop.PopLoadTail? || pop.ReadCell? || pop.StoreHead?)
  {
    InitInv(g);
    RunKeeps(g, Init(g), es, s);
    push := match s.ppc
      case PIdle => PushLoadTail(value, s.p.cur(Tail))
      case PTail(_, _) => PushLoadHead(s.p.cur(Head))
      case PRoom(_, _, _) => WriteCell
      case PWritten(_, _) => StoreTail;
    pop := match s.cpc
      case CIdle => PopLoadHead(s.c.cur(Head))
      case CHead(_) => PopLoadTail(s.c.cur(Tail))
      case CFound(head) => ReadCell(s.c.cur(Cell(head % g.cap)))
      case CRead(_, _) => StoreHead;
  }

  /** Full is exact for the producer: once it returned false, the next TryPush succeeds, however stale its loads. */
  lemma NotFullStays<T(!new)>(g: Cfg<T>, es: seq<Event<T>>, s: State<T>, t: nat)
    requires g.cap >= 1 && Run(g, Init(g), es, s) && s.room && CanStep(g, s, PushLoadHead(t))
    ensures Step(g, s, PushLoadHead(t)).ppc.PRoom?
  {
    InitInv(g);
    RunKeeps(g, Init(g), es, s);
    LastOf(g, s, Head);
  }
}
