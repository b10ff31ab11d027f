/**
 The seqlock overwrite ring (include/xmbase/concurrency/detail/seqlock_ring.hpp) under the view-based
 memory semantics, one step per atomic load, atomic store or fence.

 One writer repeatedly runs Store; it may crash at any step, and a reclaiming writer then runs
 RepairAfterWriterCrash. Any number of readers run Load and Snapshot. Readers store nothing, so the
 shared state evolves by writer steps alone.
 */
module SeqlockWeak {
  import opened WeakMemory

  /** N cells of W words each. */
  datatype Cfg = Cfg(N: nat, W: nat) {
    predicate Valid() { N >= 1 }
  }

  datatype Loc = Cursor | Seq(cell: nat) | Index(cell: nat) | Word(cell: nat, i: nat)

  /** A stored 64-bit word x. `att` is bookkeeping that no step branches on: the store attempt it belongs to. */
  datatype Val = Val(x: nat, att: nat)

  type Mem = Loc -> seq<Msg<Loc, Val>>

  /** One run of Store from its odd-sequence store on. Attempt 0 stands for the constructor. */
  datatype Attempt = Attempt(idx: nat, value: seq<nat>)

  datatype WPc =
    | Idle
    | GotIdx(value: seq<nat>, idx: nat)
    | GotSeq(value: seq<nat>, idx: nat, s: nat)
    | Odd(value: seq<nat>, idx: nat, s: nat)
    | Fenced(value: seq<nat>, idx: nat, s: nat)
    | Words(value: seq<nat>, idx: nat, s: nat, i: nat)
    | Even(idx: nat)
    | Crashed
    | RepairIdx(idx: nat)
    | RepairOdd(idx: nat, k: nat)

  /** log: every attempt so far. pub: for each published position, the attempt that published it. */
  datatype Shared = Shared(mem: Mem, log: seq<Attempt>, pub: seq<nat>, th: Thread<Loc>, pc: WPc)

  datatype WStep =
    | Begin(value: seq<nat>, t: nat)
    | LoadSeq(t: nat)
    | StoreOdd
    | ReleaseFence
    | StoreIndex
    | StoreWord
    | StoreEven
    | StoreCursor
    | Crash
    | RepairLoadCursor(t: nat)
    | RepairLoadSeq(t: nat)
    | RepairStore

  function Zeros(n: nat): (z: seq<nat>)
    ensures |z| == n && forall i | 0 <= i < n :: z[i] == 0
  {
    seq(n, i => 0)
  }

  function InitMem(): Mem {
    l => [Msg(Val(0, 0), k => 0)]
  }

  function Init(cfg: Cfg): Shared {
    Shared(InitMem(), [Attempt(0, Zeros(cfg.W))], [], Start(), Idle)
  }

  predicate CanStep(cfg: Cfg, s: Shared, a: WStep) {
    cfg.Valid() &&
    match a
    case Begin(value, t) => s.pc.Idle? && |value| == cfg.W && CanLoad(s.mem, s.th, Cursor, t)
    case LoadSeq(t) => s.pc.GotIdx? && CanLoad(s.mem, s.th, Seq(s.pc.idx % cfg.N), t)
    case StoreOdd => s.pc.GotSeq?
    case ReleaseFence => s.pc.Odd?
    case StoreIndex => s.pc.Fenced?
    case StoreWord => s.pc.Words? && s.pc.i < cfg.W == |s.pc.value|
    case StoreEven => s.pc.Words? && s.pc.i == cfg.W
    case StoreCursor => s.pc.Even? && |s.log| > 0
    case Crash => true
    case RepairLoadCursor(t) => s.pc.Crashed? && CanLoad(s.mem, s.th, Cursor, t)
    case RepairLoadSeq(t) => s.pc.RepairIdx? && CanLoad(s.mem, s.th, Seq(s.pc.idx % cfg.N), t)
    case RepairStore => s.pc.RepairOdd?
  }

  function Step(cfg: Cfg, s: Shared, a: WStep): Shared
    requires CanStep(cfg, s, a)
  {
    match a
    case Begin(value, t) =>
      s.(th := LoadRelaxed(s.mem, s.th, Cursor, t), pc := GotIdx(value, s.mem(Cursor)[t].val.x))
    case LoadSeq(t) =>
      var x := Seq(s.pc.idx % cfg.N);
      s.(th := LoadRelaxed(s.mem, s.th, x, t), pc := GotSeq(s.pc.value, s.pc.idx, s.mem(x)[t].val.x))
    case StoreOdd =>
      var x := Seq(s.pc.idx % cfg.N);
      s.(mem := StoreRelaxed(s.mem, s.th, x, Val(s.pc.s + 1, |s.log|)),
      log := s.log + [Attempt(s.pc.idx, s.pc.value)],
      th := Stored(s.mem, s.th, x),
      pc := Odd(s.pc.value, s.pc.idx, s.pc.s))
    case ReleaseFence =>
      s.(th := FenceRelease(s.th), pc := Fenced(s.pc.value, s.pc.idx, s.pc.s))
    case StoreIndex =>
      var x := Index(s.pc.idx % cfg.N);
      s.(mem := StoreRelaxed(s.mem, s.th, x, Val(s.pc.idx, Current(s))),
      th := Stored(s.mem, s.th, x),
      pc := Words(s.pc.value, s.pc.idx, s.pc.s, 0))
    case StoreWord =>
      var x := Word(s.pc.idx % cfg.N, s.pc.i);
      s.(mem := StoreRelaxed(s.mem, s.th, x, Val(s.pc.value[s.pc.i], Current(s))),
      th := Stored(s.mem, s.th, x),
      pc := s.pc.(i := s.pc.i + 1))
    case StoreEven =>
      var x := Seq(s.pc.idx % cfg.N);
      s.(mem := StoreRelease(s.mem, s.th, x, Val(s.pc.s + 2, Current(s))),
      th := Stored(s.mem, s.th, x),
      pc := Even(s.pc.idx))
    case StoreCursor =>
      s.(mem := StoreRelease(s.mem, s.th, Cursor, Val(s.pc.idx + 1, Current(s))),
      pub := s.pub + [Current(s)],
      th := Stored(s.mem, s.th, Cursor),
      pc := Idle)
    case Crash =>
      // The reclaiming writer has synchronized with the dead one, but has executed no fence of its own.
      s.(th := s.th.(rel := l => 0), pc := Crashed)
    case RepairLoadCursor(t) =>
      s.(th := LoadRelaxed(s.mem, s.th, Cursor, t), pc := RepairIdx(s.mem(Cursor)[t].val.x))
    case RepairLoadSeq(t) =>
      var x := Seq(s.pc.idx % cfg.N);
      s.(th := LoadRelaxed(s.mem, s.th, x, t),
      pc := if s.mem(x)[t].val.x % 2 == 1 then RepairOdd(s.pc.idx, s.mem(x)[t].val.att) else Idle)
    case RepairStore =>
      var x := Seq(s.pc.idx % cfg.N);
      s.(mem := StoreRelease(s.mem, s.th, x, Val(0, s.pc.k)),
      th := Stored(s.mem, s.th, x),
      pc := Idle)
  }

  function Current(s: Shared): nat {
    if |s.log| > 0 then |s.log| - 1 else 0
  }

  // ---- what every message of every history satisfies ----

  /** Consecutive sequence words of one cell: open a new attempt, close it, or retract it by a repair. */
  predicate SeqNext(p: Val, q: Val) {
    || (q.x == p.x + 1 && q.x % 2 == 1 && p.att < q.att)
    || (q.x == p.x + 1 && q.x % 2 == 0 && p.att == q.att)
    || (q.x == 0 && p.x % 2 == 1 && p.att == q.att)
  }

  ghost predicate SeqLink(h: seq<Msg<Loc, Val>>, t: nat)
    requires 0 < t < |h|
  {
    SeqNext(h[t - 1].val, h[t].val)
  }

  ghost predicate SeqHistory(h: seq<Msg<Loc, Val>>) {
    && |h| >= 1 && h[0].val == Val(0, 0)
    && forall t | 0 < t < |h| :: SeqLink(h, t)
  }

  ghost predicate TagsAscend(h: seq<Msg<Loc, Val>>) {
    forall t, u | 0 <= t <= u < |h| :: h[t].val.att <= h[u].val.att
  }

  ghost predicate HistoryOk(x: Loc, h: seq<Msg<Loc, Val>>) {
    && |h| >= 1
    && match x
       case Seq(_) => SeqHistory(h)
       case Cursor => forall t | 0 <= t < |h| :: h[t].val.x == t
       case _ => TagsAscend(h)
  }

  /** The attempt of message t of h, or 0 when out of range. */
  function Tag(h: seq<Msg<Loc, Val>>, t: nat): nat {
    if t < |h| then h[t].val.att else 0
  }

  /** Message t of the sequence history h closes attempt k, or belongs to a later attempt. */
  predicate Closed(h: seq<Msg<Loc, Val>>, t: nat, k: nat) {
    t < |h| && (h[t].val.att > k || (h[t].val.att == k && h[t].val.x % 2 == 0 && h[t].val.x != 0))
  }

  /** (W1): a message of a data word publishes the odd store of its own attempt. */
  ghost predicate PublishesOdd(mem: Mem, n: nat, m: Msg<Loc, Val>) {
    Tag(mem(Seq(n)), m.view(Seq(n))) >= m.val.att
  }

  /** (W2): a closing sequence word publishes the index and every word of its attempt. */
  ghost predicate PublishesData(cfg: Cfg, mem: Mem, n: nat, m: Msg<Loc, Val>) {
    && Tag(mem(Index(n)), m.view(Index(n))) >= m.val.att
    && forall i | 0 <= i < cfg.W :: Tag(mem(Word(n, i)), m.view(Word(n, i))) >= m.val.att
  }

  /** (W3): a view that includes the closing sequence word of every position below c. */
  ghost predicate SeesPublished(cfg: Cfg, mem: Mem, pub: seq<nat>, view: Loc -> nat, c: nat)
    requires cfg.Valid()
  {
    c <= |pub| && forall p | 0 <= p < c :: Closed(mem(Seq(p % cfg.N)), view(Seq(p % cfg.N)), pub[p])
  }

  ghost predicate OfCell(cfg: Cfg, log: seq<Attempt>, n: nat, k: nat)
    requires cfg.Valid()
  {
    k < |log| && (k >= 1 ==> log[k].idx % cfg.N == n)
  }

  ghost predicate MsgOk(cfg: Cfg, mem: Mem, log: seq<Attempt>, pub: seq<nat>, x: Loc, m: Msg<Loc, Val>)
    requires cfg.Valid()
  {
    match x
    case Seq(n) =>
      && OfCell(cfg, log, n, m.val.att)
      && (m.val.x % 2 == 0 && m.val.x != 0 ==> PublishesData(cfg, mem, n, m))
    case Index(n) =>
      OfCell(cfg, log, n, m.val.att) && m.val.x == log[m.val.att].idx && PublishesOdd(mem, n, m)
    case Word(n, i) =>
      && m.val.att < |log|
      && (i < |log[m.val.att].value| ==> m.val.x == log[m.val.att].value[i])
      && PublishesOdd(mem, n, m)
    case Cursor =>
      SeesPublished(cfg, mem, pub, m.view, m.val.x)
  }

  ghost predicate PubLog(cfg: Cfg, log: seq<Attempt>, pub: seq<nat>) {
    && |log| >= 1
    && (forall k | 0 <= k < |log| :: log[k].idx <= |pub| && |log[k].value| == cfg.W)
    && (forall p | 0 <= p < |pub| :: 1 <= pub[p] < |log| && log[pub[p]].idx == p)
    && (forall p, k | 0 <= p < |pub| && pub[p] < k < |log| :: log[k].idx > p)
  }

  ghost predicate ViewsInRange(mem: Mem) {
    forall x, t, y {:trigger mem(x)[t].view(y)} | 0 <= t < |mem(x)| :: mem(x)[t].view(y) < |mem(y)|
  }

  ghost predicate MemInv(cfg: Cfg, mem: Mem, log: seq<Attempt>, pub: seq<nat>) {
    && cfg.Valid()
    && (forall x {:trigger HistoryOk(x, mem(x))} :: HistoryOk(x, mem(x)))
    && ViewsInRange(mem)
    && (forall x, t {:trigger MsgOk(cfg, mem, log, pub, x, mem(x)[t])} | 0 <= t < |mem(x)| ::
          MsgOk(cfg, mem, log, pub, x, mem(x)[t]))
    && |mem(Cursor)| == |pub| + 1
    && PubLog(cfg, log, pub)
  }

  // ---- the writer ----

  function Last(h: seq<Msg<Loc, Val>>): Val {
    if |h| > 0 then h[|h| - 1].val else Val(0, 0)
  }

  ghost predicate AllEvenBut(mem: Mem, n: int) {
    forall k: nat | k != n :: Last(mem(Seq(k))).x % 2 == 0
  }

  /** An attempt is open: its odd sequence word is the newest of its cell, and every other cell is even. */
  ghost predicate Open(cfg: Cfg, s: Shared, value: seq<nat>, idx: nat, sq: nat)
    requires cfg.Valid()
  {
    var k := Current(s);
    && k >= 1 && s.log[k] == Attempt(idx, value) && idx == |s.pub| && |value| == cfg.W
    && Last(s.mem(Seq(idx % cfg.N))) == Val(sq + 1, k) && sq % 2 == 0
    && AllEvenBut(s.mem, idx % cfg.N)
  }

  ghost predicate OddPublished(cfg: Cfg, s: Shared, idx: nat)
    requires cfg.Valid()
  {
    s.th.rel(Seq(idx % cfg.N)) == |s.mem(Seq(idx % cfg.N))| - 1
  }

  ghost predicate PcInv(cfg: Cfg, s: Shared)
    requires cfg.Valid()
  {
    match s.pc
    case Idle => AllEvenBut(s.mem, -1)
    case GotIdx(value, idx) => AllEvenBut(s.mem, -1) && idx == |s.pub| && |value| == cfg.W
    case GotSeq(value, idx, sq) =>
      AllEvenBut(s.mem, -1) && idx == |s.pub| && |value| == cfg.W && sq == Last(s.mem(Seq(idx % cfg.N))).x
    case Odd(value, idx, sq) => Open(cfg, s, value, idx, sq)
    case Fenced(value, idx, sq) => Open(cfg, s, value, idx, sq) && OddPublished(cfg, s, idx)
    case Words(value, idx, sq, i) =>
      && Open(cfg, s, value, idx, sq) && OddPublished(cfg, s, idx)
      && i <= cfg.W
      && Last(s.mem(Index(idx % cfg.N))).att == Current(s)
      && forall j | 0 <= j < i :: Last(s.mem(Word(idx % cfg.N, j))).att == Current(s)
    case Even(idx) =>
      && AllEvenBut(s.mem, -1) && idx == |s.pub| && Current(s) >= 1 && s.log[Current(s)].idx == idx
      && Last(s.mem(Seq(idx % cfg.N))).att == Current(s) && Last(s.mem(Seq(idx % cfg.N))).x > 0
    case Crashed => AllEvenBut(s.mem, |s.pub| % cfg.N)
    case RepairIdx(idx) => AllEvenBut(s.mem, |s.pub| % cfg.N) && idx == |s.pub|
    case RepairOdd(idx, k) =>
      && AllEvenBut(s.mem, |s.pub| % cfg.N) && idx == |s.pub|
      && Last(s.mem(Seq(idx % cfg.N))).x % 2 == 1 && Last(s.mem(Seq(idx % cfg.N))).att == k
  }

  /** The writer has seen every message: it stored them all. */
  ghost predicate WriterInv(cfg: Cfg, s: Shared)
    requires cfg.Valid()
  {
    && (forall l :: |s.mem(l)| >= 1 && s.th.cur(l) == |s.mem(l)| - 1 && s.th.rel(l) < |s.mem(l)|)
    && |s.log| >= 1
    && PcInv(cfg, s)
  }

  ghost predicate Inv(cfg: Cfg, s: Shared) {
    MemInv(cfg, s.mem, s.log, s.pub) && WriterInv(cfg, s)
  }


  // ---- histories only grow ----

  ghost predicate Grows(mem: Mem, mem2: Mem) {
    forall x :: mem(x) <= mem2(x)
  }

  lemma MsgGrows(cfg: Cfg, mem: Mem, log: seq<Attempt>, pub: seq<nat>, mem2: Mem, log2: seq<Attempt>, pub2: seq<nat>,
                 x: Loc, m: Msg<Loc, Val>)
    requires cfg.Valid() && MsgOk(cfg, mem, log, pub, x, m)
    requires Grows(mem, mem2) && log <= log2 && pub <= pub2
    requires forall y :: m.view(y) < |mem(y)|
    ensures MsgOk(cfg, mem2, log2, pub2, x, m)
  {
  }

  lemma AppendKeeps(cfg: Cfg, mem: Mem, log: seq<Attempt>, pub: seq<nat>, log2: seq<Attempt>, pub2: seq<nat>,
                    x: Loc, m: Msg<Loc, Val>)
    requires MemInv(cfg, mem, log, pub)
    requires log <= log2 && pub <= pub2 && PubLog(cfg, log2, pub2)
    requires HistoryOk(x, mem(x) + [m]) && forall y :: m.view(y) < |Append(mem, x, m)(y)|
    requires MsgOk(cfg, Append(mem, x, m), log2, pub2, x, m)
    requires |pub2| == |pub| + (if x == Cursor then 1 else 0)
    ensures MemInv(cfg, Append(mem, x, m), log2, pub2) && Grows(mem, Append(mem, x, m))
  {
    var mem2 := Append(mem, x, m);
    assert Grows(mem, mem2);
    forall y ensures HistoryOk(y, mem2(y)) {
      assert HistoryOk(y, mem(y));
    }
    forall y, t, z | 0 <= t < |mem2(y)| ensures mem2(y)[t].view(z) < |mem2(z)| {
      if t < |mem(y)| {
        assert mem2(y)[t] == mem(y)[t] && mem(y)[t].view(z) < |mem(z)|;
      }
    }
    forall y, t | 0 <= t < |mem2(y)| ensures MsgOk(cfg, mem2, log2, pub2, y, mem2(y)[t]) {
      if t < |mem(y)| {
        MsgGrows(cfg, mem, log, pub, mem2, log2, pub2, y, mem(y)[t]);
      }
    }
  }

  // ---- sequence histories ----

  lemma {:induction false} SeqTagsAscend(h: seq<Msg<Loc, Val>>, t: nat, u: nat)
    requires SeqHistory(h) && t <= u < |h|
    ensures h[t].val.att <= h[u].val.att
    decreases u
  {
    if t < u {
      SeqTagsAscend(h, t, u - 1);
      assert SeqLink(h, u);
    }
  }

  /** After an even word, every later word of the cell belongs to a later attempt. */
  lemma AfterEven(h: seq<Msg<Loc, Val>>, t: nat, u: nat)
    requires SeqHistory(h) && t < u < |h| && h[t].val.x % 2 == 0
    ensures h[t].val.att < h[u].val.att
  {
    assert SeqLink(h, t + 1);
    SeqTagsAscend(h, t + 1, u);
  }

  lemma ClosedStays(h: seq<Msg<Loc, Val>>, t: nat, u: nat, k: nat)
    requires SeqHistory(h) && t <= u < |h| && Closed(h, t, k)
    ensures Closed(h, u, k)
  {
    if t < u {
      SeqTagsAscend(h, t, u);
      if h[t].val.att == k { AfterEven(h, t, u); }
    }
  }

  ghost predicate NoRepair(h: seq<Msg<Loc, Val>>, t: nat, u: nat)
    requires u < |h|
  {
    forall j | t < j <= u :: h[j].val.x != 0
  }

  /** Without a repair in between, the sequence word counts up by one a store. */
  lemma {:induction false} SeqCounts(h: seq<Msg<Loc, Val>>, t: nat, u: nat)
    requires SeqHistory(h) && t <= u < |h| && NoRepair(h, t, u)
    ensures h[u].val.x == h[t].val.x + (u - t)
    decreases u
  {
    if t < u {
      SeqCounts(h, t, u - 1);
      assert SeqLink(h, u);
    }
  }

  // ---- every writer step keeps the invariant ----

  lemma InitInv(cfg: Cfg)
    requires cfg.Valid()
    ensures Inv(cfg, Init(cfg))
  {
    var s := Init(cfg);
    forall x, t | 0 <= t < |s.mem(x)| ensures MsgOk(cfg, s.mem, s.log, s.pub, x, s.mem(x)[t]) {
      assert s.mem(x)[t] == Msg(Val(0, 0), s.mem(x)[t].view);
    }
    assert MemInv(cfg, s.mem, s.log, s.pub);
  }

  lemma LastIsCurrent(cfg: Cfg, s: Shared, x: Loc)
    requires Inv(cfg, s)
    ensures x != Cursor ==> Last(s.mem(x)).att <= Current(s) < |s.log|
    ensures s.mem(x) != [] && s.mem(x)[|s.mem(x)| - 1].val == Last(s.mem(x))
    ensures s.th.cur(x) == |s.mem(x)| - 1
    ensures HistoryOk(x, s.mem(x)) && MsgOk(cfg, s.mem, s.log, s.pub, x, s.mem(x)[|s.mem(x)| - 1])
  {
    assert |s.mem(x)| >= 1;
    assert MsgOk(cfg, s.mem, s.log, s.pub, x, s.mem(x)[|s.mem(x)| - 1]);
  }

  lemma BeginKeepsLog(cfg: Cfg, log: seq<Attempt>, pub: seq<nat>, value: seq<nat>)
    requires PubLog(cfg, log, pub) && |value| == cfg.W
    ensures PubLog(cfg, log + [Attempt(|pub|, value)], pub)
  {
  }

  lemma SeqExtends(h: seq<Msg<Loc, Val>>, m: Msg<Loc, Val>)
    requires SeqHistory(h) && SeqNext(Last(h), m.val)
    ensures SeqHistory(h + [m])
  {
    forall t | 0 < t < |h + [m]| ensures SeqLink(h + [m], t) {
      if t < |h| { assert SeqLink(h, t); }
    }
  }

  lemma OddMessageFits(cfg: Cfg, s: Shared, x: Loc, m: Msg<Loc, Val>)
    requires Inv(cfg, s) && s.pc.GotSeq? && x == Seq(s.pc.idx % cfg.N)
    requires m == Msg(Val(s.pc.s + 1, |s.log|), Advance(s.th.rel, x, |s.mem(x)|))
    ensures HistoryOk(x, s.mem(x) + [m]) && forall y :: m.view(y) < |Append(s.mem, x, m)(y)|
    ensures MsgOk(cfg, Append(s.mem, x, m), s.log + [Attempt(s.pc.idx, s.pc.value)], s.pub, x, m)
    ensures PubLog(cfg, s.log + [Attempt(s.pc.idx, s.pc.value)], s.pub)
  {
    LastIsCurrent(cfg, s, x);
    BeginKeepsLog(cfg, s.log, s.pub, s.pc.value);
    SeqExtends(s.mem(x), m);
  }

  lemma StoreOddMem(cfg: Cfg, s: Shared)
    requires Inv(cfg, s) && CanStep(cfg, s, StoreOdd)
    ensures MemInv(cfg, Step(cfg, s, StoreOdd).mem, Step(cfg, s, StoreOdd).log, s.pub)
    ensures Grows(s.mem, Step(cfg, s, StoreOdd).mem)
  {
    var x := Seq(s.pc.idx % cfg.N);
    var m := Msg(Val(s.pc.s + 1, |s.log|), Advance(s.th.rel, x, |s.mem(x)|));
    OddMessageFits(cfg, s, x, m);
    AppendKeeps(cfg, s.mem, s.log, s.pub, Step(cfg, s, StoreOdd).log, s.pub, x, m);
  }

  lemma StoreDataMem(cfg: Cfg, s: Shared, a: WStep, x: Loc, v: nat)
    requires Inv(cfg, s) && CanStep(cfg, s, a)
    requires || (a == StoreIndex && x == Index(s.pc.idx % cfg.N) && v == s.pc.idx)
             || (a == StoreWord && x == Word(s.pc.idx % cfg.N, s.pc.i) && v == s.pc.value[s.pc.i])
    ensures MemInv(cfg, Step(cfg, s, a).mem, s.log, s.pub) && Grows(s.mem, Step(cfg, s, a).mem)
  {
    LastIsCurrent(cfg, s, x);
    var m := Msg(Val(v, Current(s)), Advance(s.th.rel, x, |s.mem(x)|));
    AppendKeeps(cfg, s.mem, s.log, s.pub, s.log, s.pub, x, m);
  }

  /** Before the even store, the writer's view includes the index and every word of its attempt. */
  lemma WriterSeesData(cfg: Cfg, s: Shared)
    requires cfg.Valid() && WriterInv(cfg, s) && s.pc.Words? && s.pc.i == cfg.W
    ensures var n := s.pc.idx % cfg.N;
            && Tag(s.mem(Index(n)), s.th.cur(Index(n))) >= Current(s)
            && forall i | 0 <= i < cfg.W :: Tag(s.mem(Word(n, i)), s.th.cur(Word(n, i))) >= Current(s)
  {
    var n := s.pc.idx % cfg.N;
    forall i | 0 <= i < cfg.W ensures Tag(s.mem(Word(n, i)), s.th.cur(Word(n, i))) >= Current(s) {
      assert Last(s.mem(Word(n, i))).att == Current(s);
    }
  }

  lemma StoreEvenMem(cfg: Cfg, s: Shared)
    requires Inv(cfg, s) && CanStep(cfg, s, StoreEven)
    ensures MemInv(cfg, Step(cfg, s, StoreEven).mem, s.log, s.pub) && Grows(s.mem, Step(cfg, s, StoreEven).mem)
  {
    var n := s.pc.idx % cfg.N;
    LastIsCurrent(cfg, s, Seq(n));
    var m := Msg(Val(s.pc.s + 2, Current(s)), Advance(s.th.cur, Seq(n), |s.mem(Seq(n))|));
    WriterSeesData(cfg, s);
    SeqExtends(s.mem(Seq(n)), m);
    assert PublishesData(cfg, Append(s.mem, Seq(n), m), n, m);
    AppendKeeps(cfg, s.mem, s.log, s.pub, s.log, s.pub, Seq(n), m);
  }

  lemma RepairStoreMem(cfg: Cfg, s: Shared)
    requires Inv(cfg, s) && CanStep(cfg, s, RepairStore)
    ensures MemInv(cfg, Step(cfg, s, RepairStore).mem, s.log, s.pub)
    ensures Grows(s.mem, Step(cfg, s, RepairStore).mem)
  {
    var x := Seq(s.pc.idx % cfg.N);
    LastIsCurrent(cfg, s, x);
    var m := Msg(Val(0, s.pc.k), Advance(s.th.cur, x, |s.mem(x)|));
    SeqExtends(s.mem(x), m);
    AppendKeeps(cfg, s.mem, s.log, s.pub, s.log, s.pub, x, m);
  }

  /** The writer's own view includes the closing word of every published position. */
  lemma WriterSeesPublished(cfg: Cfg, s: Shared, p: nat)
    requires Inv(cfg, s) && p < |s.pub|
    ensures Closed(s.mem(Seq(p % cfg.N)), s.th.cur(Seq(p % cfg.N)), s.pub[p])
  {
    var x := Seq(p % cfg.N);
    LastIsCurrent(cfg, s, x);
    var newest := s.mem(Cursor)[|s.pub|];
    assert HistoryOk(Cursor, s.mem(Cursor));
    assert MsgOk(cfg, s.mem, s.log, s.pub, Cursor, newest);
    ClosedStays(s.mem(x), newest.view(x), |s.mem(x)| - 1, s.pub[p]);
  }

  lemma PublishKeepsLog(cfg: Cfg, log: seq<Attempt>, pub: seq<nat>)
    requires PubLog(cfg, log, pub) && |log| > 1 && log[|log| - 1].idx == |pub|
    ensures PubLog(cfg, log, pub + [|log| - 1])
  {
  }

  lemma StoreCursorMem(cfg: Cfg, s: Shared)
    requires Inv(cfg, s) && CanStep(cfg, s, StoreCursor)
    ensures MemInv(cfg, Step(cfg, s, StoreCursor).mem, s.log, Step(cfg, s, StoreCursor).pub)
    ensures Grows(s.mem, Step(cfg, s, StoreCursor).mem)
  {
    var pub2 := s.pub + [Current(s)];
    var m := Msg(Val(s.pc.idx + 1, Current(s)), Advance(s.th.cur, Cursor, |s.mem(Cursor)|));
    LastIsCurrent(cfg, s, Cursor);
    PublishKeepsLog(cfg, s.log, s.pub);
    forall p | 0 <= p < |pub2| ensures Closed(s.mem(Seq(p % cfg.N)), s.th.cur(Seq(p % cfg.N)), pub2[p]) {
      LastIsCurrent(cfg, s, Seq(p % cfg.N));
      if p < |s.pub| { WriterSeesPublished(cfg, s, p); }
    }
    AppendKeeps(cfg, s.mem, s.log, s.pub, s.log, pub2, Cursor, m);
  }

  lemma StepKeepsMem(cfg: Cfg, s: Shared, a: WStep)
    requires Inv(cfg, s) && CanStep(cfg, s, a)
    ensures MemInv(cfg, Step(cfg, s, a).mem, Step(cfg, s, a).log, Step(cfg, s, a).pub)
    ensures Grows(s.mem, Step(cfg, s, a).mem) && s.log <= Step(cfg, s, a).log && s.pub <= Step(cfg, s, a).pub
  {
    match a
    case StoreOdd => StoreOddMem(cfg, s);
    case StoreIndex => StoreDataMem(cfg, s, a, Index(s.pc.idx % cfg.N), s.pc.idx);
    case StoreWord => StoreDataMem(cfg, s, a, Word(s.pc.idx % cfg.N, s.pc.i), s.pc.value[s.pc.i]);
    case StoreEven => StoreEvenMem(cfg, s);
    case StoreCursor => StoreCursorMem(cfg, s);
    case RepairStore => RepairStoreMem(cfg, s);
    case _ =>
  }

  /** What the writer relies on about the memory, besides its own invariant. */
  ghost predicate WriterFacts(s: Shared) {
    && |s.mem(Cursor)| == |s.pub| + 1 && Last(s.mem(Cursor)).x == |s.pub|
    && forall n {:trigger Seq(n)} :: Last(s.mem(Seq(n))).att < |s.log|
  }

  predicate Stores(a: WStep) {
    a.StoreOdd? || a.StoreIndex? || a.StoreWord? || a.StoreEven? || a.StoreCursor? || a.RepairStore?
  }

  lemma LoadKeepsWriter(cfg: Cfg, s: Shared, a: WStep)
    requires cfg.Valid() && WriterInv(cfg, s) && CanStep(cfg, s, a) && WriterFacts(s) && (a.Begin? || a.LoadSeq?)
    ensures WriterInv(cfg, Step(cfg, s, a))
  {
  }

  lemma RepairLoadKeepsWriter(cfg: Cfg, s: Shared, a: WStep)
    requires cfg.Valid() && WriterInv(cfg, s) && CanStep(cfg, s, a) && WriterFacts(s)
    requires a.RepairLoadCursor? || a.RepairLoadSeq?
    ensures WriterInv(cfg, Step(cfg, s, a))
  {
  }

  lemma FenceOrCrashKeepsWriter(cfg: Cfg, s: Shared, a: WStep)
    requires cfg.Valid() && WriterInv(cfg, s) && CanStep(cfg, s, a) && WriterFacts(s) && (a.ReleaseFence? || a.Crash?)
    ensures WriterInv(cfg, Step(cfg, s, a))
  {
  }

  lemma LocalStepKeepsWriter(cfg: Cfg, s: Shared, a: WStep)
    requires cfg.Valid() && WriterInv(cfg, s) && CanStep(cfg, s, a) && WriterFacts(s) && !Stores(a)
    ensures WriterInv(cfg, Step(cfg, s, a))
  {
    if a.Begin? || a.LoadSeq? { LoadKeepsWriter(cfg, s, a); }
    else if a.ReleaseFence? || a.Crash? { FenceOrCrashKeepsWriter(cfg, s, a); }
    else { RepairLoadKeepsWriter(cfg, s, a); }
  }

  lemma StoreOddKeepsWriter(cfg: Cfg, s: Shared)
    requires cfg.Valid() && WriterInv(cfg, s) && CanStep(cfg, s, StoreOdd) && WriterFacts(s)
    ensures WriterInv(cfg, Step(cfg, s, StoreOdd))
  {
  }

  lemma StoreDataKeepsWriter(cfg: Cfg, s: Shared, a: WStep)
    requires cfg.Valid() && WriterInv(cfg, s) && CanStep(cfg, s, a) && (a == StoreIndex || a == StoreWord)
    ensures WriterInv(cfg, Step(cfg, s, a))
  {
  }

  lemma StoreEvenKeepsWriter(cfg: Cfg, s: Shared)
    requires cfg.Valid() && WriterInv(cfg, s) && CanStep(cfg, s, StoreEven)
    ensures WriterInv(cfg, Step(cfg, s, StoreEven))
  {
  }

  lemma RepairStoreKeepsWriter(cfg: Cfg, s: Shared)
    requires cfg.Valid() && WriterInv(cfg, s) && CanStep(cfg, s, RepairStore)
    ensures WriterInv(cfg, Step(cfg, s, RepairStore))
  {
  }

  lemma StoreCursorKeepsWriter(cfg: Cfg, s: Shared)
    requires cfg.Valid() && WriterInv(cfg, s) && CanStep(cfg, s, StoreCursor)
    ensures WriterInv(cfg, Step(cfg, s, StoreCursor))
  {
  }

  lemma StepKeeps(cfg: Cfg, s: Shared, a: WStep)
    requires Inv(cfg, s) && CanStep(cfg, s, a)
    ensures Inv(cfg, Step(cfg, s, a))
    ensures Grows(s.mem, Step(cfg, s, a).mem) && s.log <= Step(cfg, s, a).log && s.pub <= Step(cfg, s, a).pub
  {
    StepKeepsMem(cfg, s, a);
    LastIsCurrent(cfg, s, Cursor);
    forall n ensures Last(s.mem(Seq(n))).att < |s.log| { LastIsCurrent(cfg, s, Seq(n)); }
    if !Stores(a) { LocalStepKeepsWriter(cfg, s, a); }
    else {
      match a
      case StoreOdd => StoreOddKeepsWriter(cfg, s);
      case StoreCursor => StoreCursorKeepsWriter(cfg, s);
      case StoreEven => StoreEvenKeepsWriter(cfg, s);
      case RepairStore => RepairStoreKeepsWriter(cfg, s);
      case _ => StoreDataKeepsWriter(cfg, s, a);
    }
  }
}
