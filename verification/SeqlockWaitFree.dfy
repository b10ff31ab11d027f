/**
 The wait-freedom of the weak-memory ring: how many steps of its own each verb takes, whatever the others do.
 */
module SeqlockWaitFree {
  import opened WeakMemory
  import opened SeqlockWeak
  import opened SeqlockReaders
  import opened SeqlockTrace

  // ---- Store ----

  /** How many steps the Store under way still takes. */
  function StoreLeft(cfg: Cfg, pc: WPc): int {
    match pc
    case GotIdx(_, _) => cfg.W + 6
    case GotSeq(_, _, _) => cfg.W + 5
    case Odd(_, _, _) => cfg.W + 4
    case Fenced(_, _, _) => cfg.W + 3
    case Words(_, _, _, i) => cfg.W - i + 2
    case Even(_) => 1
    case _ => 0
  }

  predicate UnderWay(pc: WPc) {
    Storing(pc) || pc.Even?
  }

  /** The writer can always begin a Store when it has none under way, and can always take the next step of one. */
  lemma StoresNeverBlock(cfg: Cfg, s: Shared, value: seq<nat>) returns (w: WStep)
    requires Inv(cfg, s) && |value| == cfg.W && (s.pc.Idle? || UnderWay(s.pc))
    ensures CanStep(cfg, s, w) && !w.Crash?
    ensures s.pc.Idle? ==> w.Begin? && w.value == value
  {
    match s.pc
    case Idle => w := Begin(value, s.th.cur(Cursor));
    case GotIdx(_, idx) => w := LoadSeq(s.th.cur(Seq(idx % cfg.N)));
    case GotSeq(_, _, _) => w := StoreOdd;
    case Odd(_, _, _) => w := ReleaseFence;
    case Fenced(_, _, _) => w := StoreIndex;
    case Words(_, _, _, i) => w := if i < cfg.W then StoreWord else StoreEven;
    case Even(_) => w := StoreCursor;
    case _ =>
  }

  lemma StoreStepsDown(cfg: Cfg, s: Shared, w: WStep)
    requires Inv(cfg, s) && CanStep(cfg, s, w) && UnderWay(s.pc) && !w.Crash?
    ensures StoreLeft(cfg, Step(cfg, s, w).pc) == StoreLeft(cfg, s.pc) - 1
    ensures w == StoreCursor || UnderWay(Step(cfg, s, w).pc)
  {
  }

  /** How many of the actions are the writer's. */
  function Writes(acts: seq<Action>): nat {
    if |acts| == 0 then 0 else Writes(acts[..|acts| - 1]) + (if acts[|acts| - 1].Write? then 1 else 0)
  }

  lemma OneMoreAction(acts: seq<Action>, b: nat, e: nat)
    requires b <= e < |acts|
    ensures Writes(acts[b..e + 1]) == Writes(acts[b..e]) + if acts[e].Write? then 1 else 0
  {
    assert acts[b..e + 1][..e - b] == acts[b..e] && acts[b..e + 1][e - b] == acts[e];
  }

  lemma ActionOfStore(cfg: Cfg, run: seq<System>, acts: seq<Action>, i: nat)
    requires Trace(cfg, run, acts) && i < |acts| && UnderWay(run[i].shared.pc) && acts[i] != Write(Crash)
    ensures StoreLeft(cfg, run[i + 1].shared.pc) + (if acts[i].Write? then 1 else 0) == StoreLeft(cfg, run[i].shared.pc)
    ensures acts[i] == Write(StoreCursor) || UnderWay(run[i + 1].shared.pc)
  {
    SentKeeps(cfg, run, acts, i);
    assert StepsTo(cfg, run[i], acts[i], run[i + 1]);
    if acts[i].Write? { StoreStepsDown(cfg, run[i].shared, acts[i].w); }
  }

  lemma BeginOfStore(cfg: Cfg, run: seq<System>, acts: seq<Action>, b: nat)
    requires Trace(cfg, run, acts) && b < |acts| && acts[b].Write? && acts[b].w.Begin?
    ensures UnderWay(run[b + 1].shared.pc) && StoreLeft(cfg, run[b + 1].shared.pc) == cfg.W + 6
  {
    assert StepsTo(cfg, run[b], acts[b], run[b + 1]);
  }

  lemma {:induction false} StepsOfStore(cfg: Cfg, run: seq<System>, acts: seq<Action>, b: nat, e: nat)
    requires Trace(cfg, run, acts) && b < e <= |acts| && acts[b].Write? && acts[b].w.Begin?
    requires forall j | b < j < e :: !EndsAStore(acts[j])
    ensures UnderWay(run[e].shared.pc)
    ensures Writes(acts[b + 1..e]) + StoreLeft(cfg, run[e].shared.pc) == cfg.W + 6
    decreases e
  {
    if e == b + 1 {
      BeginOfStore(cfg, run, acts, b);
    } else {
      StepsOfStore(cfg, run, acts, b, e - 1);
      ActionOfStore(cfg, run, acts, e - 1);
      OneMoreAction(acts, b + 1, e - 1);
    }
  }

  /** Store is wait-free: after the cursor load it takes exactly W + 6 steps of the writer, whatever the readers do. */
  lemma StoreIsWaitFree(cfg: Cfg, run: seq<System>, acts: seq<Action>, b: nat, e: nat)
    requires Trace(cfg, run, acts) && b < e < |acts| && acts[b].Write? && acts[b].w.Begin?
    requires acts[e] == Write(StoreCursor) && forall j | b < j < e :: !EndsAStore(acts[j])
    ensures Writes(acts[b + 1..e + 1]) == cfg.W + 6
  {
    StepsOfStore(cfg, run, acts, b, e);
    assert StepsTo(cfg, run[e], acts[e], run[e + 1]) && run[e].shared.pc.Even?;
    OneMoreAction(acts, b + 1, e);
  }

  // ---- Snapshot and LoadBounded are wait-free ----

  /** Whatever the writer does, a call under way can take its next step. */
  lemma CallsNeverBlock(cfg: Cfg, s: Shared, r: Reader) returns (a: RStep)
    requires Inv(cfg, s) && RInv(cfg, s, r) && !r.pc.Resting?
    ensures CanRead(cfg, s.mem, r, a) && !a.Call?
  {
    match r.pc
    case AtCursor =>
      assert r.th.cur(Cursor) < |s.mem(Cursor)|;
      a := LoadCursor(r.th.cur(Cursor));
    case AtSeq(c, i) =>
      assert r.th.cur(CellSeq(cfg, c, i)) < |s.mem(CellSeq(cfg, c, i))|;
      a := LoadSeq1(r.th.cur(CellSeq(cfg, c, i)));
    case AtIndex(c, i, _, _) =>
      var x := Index((c - 1 - i) % cfg.N);
      assert r.th.cur(x) < |s.mem(x)|;
      a := LoadIndex(r.th.cur(x));
    case AtWords(c, i, _, _, _, words) =>
      var x := Word((c - 1 - i) % cfg.N, |words|);
      assert r.th.cur(x) < |s.mem(x)|;
      a := if |words| < cfg.W then LoadWord(r.th.cur(x)) else AcquireFence;
    case AtReload(c, i, _, _, _, _) =>
      assert r.th.cur(CellSeq(cfg, c, i)) < |s.mem(CellSeq(cfg, c, i))|;
      a := LoadSeq2(r.th.cur(CellSeq(cfg, c, i)));
    case Resting =>
  }

  /** The loads and the fence of one copy. */
  function CopySteps(cfg: Cfg): nat {
    cfg.W + 4
  }

  function CopyLeft(cfg: Cfg, pc: RPc): int {
    match pc
    case Resting => 0
    case AtCursor => 0
    case AtSeq(_, _) => cfg.W + 4
    case AtIndex(_, _, _, _) => cfg.W + 3
    case AtWords(_, _, _, _, _, words) => cfg.W - |words| + 2
    case AtReload(_, _, _, _, _, _) => 1
  }

  /** How many copies may still follow the one under way, and how many cursor loads. */
  function CopiesAfter(cfg: Cfg, r: Reader): int {
    match r.verb
    case Load => 0
    case LoadBounded(max) => if r.pc.AtCursor? then max - r.attempt + 1 else max - r.attempt
    case Snapshot(_) =>
      match r.pc
      case Resting => 0
      case AtCursor => cfg.N
      case _ => Limit(cfg, r.verb, r.pc.c) - r.pc.i - 1
  }

  function CursorsAfter(r: Reader): int {
    match r.verb
    case LoadBounded(max) => if r.pc.AtCursor? then max - r.attempt + 1 else max - r.attempt
    case _ => if r.pc.AtCursor? then 1 else 0
  }

  /** At most how many steps the call still takes. */
  function Left(cfg: Cfg, r: Reader): int {
    if r.pc.Resting? then 0 else CopiesAfter(cfg, r) * CopySteps(cfg) + CopyLeft(cfg, r.pc) + CursorsAfter(r)
  }

  /** The steps of a whole call. */
  function Budget(cfg: Cfg, verb: Verb): nat {
    match verb
    case Load => 0
    case LoadBounded(max) => (max + 1) * CopySteps(cfg) + (max + 1)
    case Snapshot(_) => cfg.N * CopySteps(cfg) + 1
  }

  /** The reader's own steps since its last call. */
  function StepsOf(acts: seq<Action>, id: nat): nat {
    if |acts| == 0 then 0
    else
      var front := StepsOf(acts[..|acts| - 1], id);
      match acts[|acts| - 1]
      case ReadBy(j, Call(_)) => if j == id then 0 else front
      case ReadBy(j, _) => if j == id then front + 1 else front
      case _ => front
  }

  lemma FewerCopies(a: int, b: int, k: nat)
    requires a < b
    ensures a * k + k <= b * k
  {
    var d: nat := b - a - 1;
    assert d * k >= 0;
    assert b * k == (a + d + 1) * k == a * k + d * k + k;
  }

  lemma LeftIsNat(cfg: Cfg, s: Shared, r: Reader)
    requires Inv(cfg, s) && RInv(cfg, s, r) && !r.verb.Load?
    requires r.verb.LoadBounded? ==> r.attempt <= r.verb.maxRetries
    ensures CopiesAfter(cfg, r) >= 0 && CursorsAfter(r) >= 0 && Left(cfg, r) >= if r.pc.Resting? then 0 else 1
  {
    if !r.pc.Resting? {
      var n: nat := CopiesAfter(cfg, r);
      assert n * CopySteps(cfg) >= 0;
    }
  }

  lemma LeftInTrace(cfg: Cfg, run: seq<System>, acts: seq<Action>, i: nat, id: nat)
    requires Trace(cfg, run, acts) && i <= |acts|
    requires LastCall(acts[..i], id).Some? && !LastCall(acts[..i], id).value.Load?
    ensures Left(cfg, run[i].readers(id)) >= if run[i].readers(id).pc.Resting? then 0 else 1
  {
    SentKeeps(cfg, run, acts, i);
    CallKeepsInTrace(cfg, run, acts, i, id);
    LeftIsNat(cfg, run[i].shared, run[i].readers(id));
  }

  /** A failed copy uses up the rest of its copy, and one of the copies that may follow if there is another attempt. */
  lemma FailStepsDown(cfg: Cfg, r: Reader, r2: Reader, c: nat)
    requires !r.pc.Resting? && !r.pc.AtCursor? && !r.verb.Load? && CopyLeft(cfg, r.pc) >= 1
    requires r2.verb == r.verb && r2.attempt == r.attempt && r.pc.c == c
    requires CopiesAfter(cfg, r) >= 0 && CursorsAfter(r) >= 0
    ensures Left(cfg, Fail(cfg, r2, c)) < Left(cfg, r)
  {
  }

  lemma SucceedStepsDown(cfg: Cfg, r: Reader, r2: Reader, c: nat, i: nat, value: seq<nat>)
    requires r.pc.AtReload? && !r.verb.Load? && r.pc.c == c && r.pc.i == i < c
    requires r2.verb == r.verb && CopiesAfter(cfg, r) >= 0 && CursorsAfter(r) >= 0
    ensures Left(cfg, Succeed(cfg, r2, c, i, value)) < Left(cfg, r)
  {
    if r.verb.Snapshot? && i + 1 < Limit(cfg, r.verb, c) {
      FewerCopies(Limit(cfg, r.verb, c) - i - 2, Limit(cfg, r.verb, c) - i - 1, CopySteps(cfg));
    }
  }

  lemma CursorStepsDown(cfg: Cfg, mem: Mem, r: Reader, t: nat)
    requires CanRead(cfg, mem, r, LoadCursor(t)) && !r.verb.Load?
    requires r.verb.LoadBounded? ==> r.attempt <= r.verb.maxRetries
    ensures Left(cfg, Read(cfg, mem, r, LoadCursor(t))) < Left(cfg, r)
  {
    var c := mem(Cursor)[t].val.x;
    if Limit(cfg, r.verb, c) > 0 {
      if r.verb.Snapshot? {
        FewerCopies(Limit(cfg, r.verb, c) - 1, cfg.N, CopySteps(cfg));
      } else {
        FewerCopies(r.verb.maxRetries - r.attempt, r.verb.maxRetries - r.attempt + 1, CopySteps(cfg));
      }
    }
  }

  lemma Seq1StepsDown(cfg: Cfg, mem: Mem, r: Reader, t: nat)
    requires CanSeq1(cfg, mem, r, t) && !r.verb.Load? && CopiesAfter(cfg, r) >= 0 && CursorsAfter(r) >= 0
    requires Left(cfg, r) >= 1
    ensures Left(cfg, Seq1(cfg, mem, r, t)) < Left(cfg, r)
  {
    FailStepsDown(cfg, r, r.(th := LoadAcquire(mem, r.th, CellSeq(cfg, r.pc.c, r.pc.i), t)), r.pc.c);
  }

  lemma Seq2StepsDown(cfg: Cfg, mem: Mem, r: Reader, t: nat)
    requires CanSeq2(cfg, mem, r, t) && !r.verb.Load? && CopiesAfter(cfg, r) >= 0 && CursorsAfter(r) >= 0
    ensures Left(cfg, Seq2(cfg, mem, r, t)) < Left(cfg, r)
  {
    var x := CellSeq(cfg, r.pc.c, r.pc.i);
    var r2 := r.(th := LoadRelaxed(mem, r.th, x, t));
    FailStepsDown(cfg, r, r2, r.pc.c);
    SucceedStepsDown(cfg, r, r2.(clean := r.clean && NoRepair(mem(x), r.pc.t1, t)), r.pc.c, r.pc.i, Values(r.pc.words));
  }

  /** Every step of a call under way leaves fewer. */
  lemma ReadStepsDown(cfg: Cfg, s: Shared, r: Reader, a: RStep)
    requires Inv(cfg, s) && RInv(cfg, s, r) && CanRead(cfg, s.mem, r, a) && !a.Call? && !r.verb.Load?
    requires r.verb.LoadBounded? ==> r.attempt <= r.verb.maxRetries
    ensures Left(cfg, Read(cfg, s.mem, r, a)) < Left(cfg, r)
  {
    LeftIsNat(cfg, s, r);
    match a
    case LoadCursor(t) => CursorStepsDown(cfg, s.mem, r, t);
    case LoadSeq1(t) => Seq1StepsDown(cfg, s.mem, r, t);
    case LoadSeq2(t) => Seq2StepsDown(cfg, s.mem, r, t);
    case _ =>
  }

  lemma CallLeaves(cfg: Cfg, r: Reader, verb: Verb)
    requires cfg.Valid() && r.pc.Resting? && !verb.Load?
    ensures Left(cfg, r.(pc := AtCursor, verb := verb, attempt := 0, out := [], clean := true)) == Budget(cfg, verb)
  {
  }

  ghost predicate Bounded(cfg: Cfg, r: Reader, call: Option<Verb>, steps: nat) {
    call.Some? && !call.value.Load? ==> steps + Left(cfg, r) <= Budget(cfg, call.value)
  }

  lemma OneActionKeepsBounded(cfg: Cfg, run: seq<System>, acts: seq<Action>, i: nat, id: nat)
    requires Trace(cfg, run, acts) && i < |acts|
    requires Bounded(cfg, run[i].readers(id), LastCall(acts[..i], id), StepsOf(acts[..i], id))
    ensures Bounded(cfg, run[i + 1].readers(id), LastCall(acts[..i + 1], id), StepsOf(acts[..i + 1], id))
  {
    var y, a := run[i], acts[i];
    var r := y.readers(id);
    SentKeeps(cfg, run, acts, i);
    CallKeepsInTrace(cfg, run, acts, i, id);
    assert StepsTo(cfg, y, a, run[i + 1]);
    assert acts[..i + 1][..i] == acts[..i];
    if a.ReadBy? && a.id == id {
      if a.a.Call? {
        if !a.a.verb.Load? { CallLeaves(cfg, r, a.a.verb); }
      } else if !r.verb.Load? {
        ReadStepsDown(cfg, y.shared, r, a.a);
      }
    }
  }

  lemma {:induction false} BoundedInTrace(cfg: Cfg, run: seq<System>, acts: seq<Action>, i: nat, id: nat)
    requires Trace(cfg, run, acts) && i <= |acts|
    ensures Bounded(cfg, run[i].readers(id), LastCall(acts[..i], id), StepsOf(acts[..i], id))
    decreases i
  {
    if i > 0 {
      BoundedInTrace(cfg, run, acts, i - 1, id);
      OneActionKeepsBounded(cfg, run, acts, i - 1, id);
    }
  }

  /**
   Snapshot and LoadBounded are wait-free: whatever the writer and the other readers do, a call takes at most N copies
   of W + 4 steps and one cursor load, or maxRetries + 1 times a copy and a cursor load.
   */
  lemma CallsAreWaitFree(cfg: Cfg, run: seq<System>, acts: seq<Action>, i: nat, id: nat)
    requires Trace(cfg, run, acts) && i <= |acts|
    requires LastCall(acts[..i], id).Some? && !LastCall(acts[..i], id).value.Load?
    ensures StepsOf(acts[..i], id) <= Budget(cfg, LastCall(acts[..i], id).value)
    ensures StepsOf(acts[..i], id) == Budget(cfg, LastCall(acts[..i], id).value) ==> run[i].readers(id).pc.Resting?
  {
    BoundedInTrace(cfg, run, acts, i, id);
    LeftInTrace(cfg, run, acts, i, id);
  }
}
