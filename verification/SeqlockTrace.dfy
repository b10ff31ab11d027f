/**
 The weak-memory ring seen by its callers: runs together with the actions that drive them, and what every run owes to
 the arguments of the calls alone. Nothing here is said in terms of the bookkeeping of SeqlockWeak.
 */
module SeqlockTrace {
  import opened WeakMemory
  import opened SeqlockWeak
  import opened SeqlockReaders

  datatype Option<T> = None | Some(value: T)

  ghost predicate StepsTo(cfg: Cfg, y: System, a: Action, z: System) {
    Enabled(cfg, y, a) && z == Act(cfg, y, a)
  }

  /** The actions of a run, and the states before, between and after them. */
  ghost predicate Trace(cfg: Cfg, run: seq<System>, acts: seq<Action>) {
    && cfg.Valid()
    && |run| == |acts| + 1 && run[0] == InitSystem(cfg)
    && forall i | 0 <= i < |acts| :: StepsTo(cfg, run[i], acts[i], run[i + 1])
  }

  lemma TraceIsRun(cfg: Cfg, run: seq<System>, acts: seq<Action>)
    requires Trace(cfg, run, acts)
    ensures Run(cfg, run)
  {
    forall i | 0 < i < |run| ensures Next(cfg, run[i - 1], run[i]) {
      assert StepsTo(cfg, run[i - 1], acts[i - 1], run[i]);
    }
  }

  /** So what holds of traces holds of all runs. */
  lemma {:induction false} EveryRunIsATrace(cfg: Cfg, run: seq<System>) returns (acts: seq<Action>)
    requires Run(cfg, run)
    ensures Trace(cfg, run, acts)
    decreases |run|
  {
    if |run| == 1 {
      acts := [];
    } else {
      var n := |run| - 1;
      var front := EveryRunIsATrace(cfg, run[..n]);
      assert Next(cfg, run[n - 1], run[n]);
      var a :| Enabled(cfg, run[n - 1], a) && run[n] == Act(cfg, run[n - 1], a);
      acts := front + [a];
      forall i | 0 <= i < |acts| ensures StepsTo(cfg, run[i], acts[i], run[i + 1]) {
        if i < n - 1 { assert StepsTo(cfg, run[..n][i], front[i], run[..n][i + 1]); }
      }
    }
  }

  lemma Shorter(cfg: Cfg, run: seq<System>, acts: seq<Action>, i: nat)
    requires Trace(cfg, run, acts) && i <= |acts|
    ensures Trace(cfg, run[..i + 1], acts[..i])
    ensures i > 0 ==> acts[..i][..i - 1] == acts[..i - 1]
  {
    forall j | 0 <= j < i ensures StepsTo(cfg, run[..i + 1][j], acts[..i][j], run[..i + 1][j + 1]) {
      assert StepsTo(cfg, run[j], acts[j], run[j + 1]);
    }
  }

  // ---- what the writer's caller did ----

  /** The argument of the last Store. */
  function Argument(acts: seq<Action>): seq<nat> {
    if |acts| == 0 then []
    else
      match acts[|acts| - 1]
      case Write(Begin(value, _)) => value
      case _ => Argument(acts[..|acts| - 1])
  }

  /** The arguments of the Stores that came to their end, oldest first. */
  function Sent(acts: seq<Action>): seq<seq<nat>> {
    if |acts| == 0 then []
    else
      var front := acts[..|acts| - 1];
      if acts[|acts| - 1] == Write(StoreCursor) then Sent(front) + [Argument(front)] else Sent(front)
  }

  predicate Storing(pc: WPc) {
    pc.GotIdx? || pc.GotSeq? || pc.Odd? || pc.Fenced? || pc.Words?
  }

  ghost predicate SentInv(s: Shared, acts: seq<Action>) {
    && |s.pub| == |Sent(acts)|
    && (forall p | 0 <= p < |s.pub| :: IsPublished(s, p, Sent(acts)[p]))
    && (Storing(s.pc) ==> s.pc.value == Argument(acts))
    && (s.pc.Even? ==> |s.log| > 0 && s.log[|s.log| - 1].value == Argument(acts))
  }

  lemma WriteKeepsSent(cfg: Cfg, s: Shared, acts: seq<Action>, w: WStep)
    requires Inv(cfg, s) && SentInv(s, acts) && CanStep(cfg, s, w)
    ensures SentInv(Step(cfg, s, w), acts + [Write(w)])
  {
    var s2, more := Step(cfg, s, w), acts + [Write(w)];
    assert more[..|more| - 1] == acts;
    if w.StoreEven? { assert s.log[Current(s)] == Attempt(s.pc.idx, s.pc.value); }
    forall p | 0 <= p < |s2.pub| ensures IsPublished(s2, p, Sent(more)[p]) {
      if p < |s.pub| { assert IsPublished(s, p, Sent(acts)[p]); }
    }
  }

  lemma ActKeepsSent(cfg: Cfg, y: System, acts: seq<Action>, a: Action)
    requires SystemInv(cfg, y) && SentInv(y.shared, acts) && Enabled(cfg, y, a)
    ensures SentInv(Act(cfg, y, a).shared, acts + [a])
  {
    match a
    case Write(w) => WriteKeepsSent(cfg, y.shared, acts, w);
    case ReadBy(_, _) => assert (acts + [a])[..|acts|] == acts;
  }

  lemma {:induction false} SentKeeps(cfg: Cfg, run: seq<System>, acts: seq<Action>, i: nat)
    requires Trace(cfg, run, acts) && i <= |acts|
    ensures SystemInv(cfg, run[i]) && SentInv(run[i].shared, acts[..i])
    decreases i
  {
    TraceIsRun(cfg, run, acts);
    RunKeeps(cfg, run, i);
    if i > 0 {
      SentKeeps(cfg, run, acts, i - 1);
      assert StepsTo(cfg, run[i - 1], acts[i - 1], run[i]);
      assert acts[..i] == acts[..i - 1] + [acts[i - 1]];
      ActKeepsSent(cfg, run[i - 1], acts[..i - 1], acts[i - 1]);
    }
  }

  /** Every word of cell n that belongs to attempt k is a word of value. */
  ghost predicate WordsOf(s: Shared, n: nat, k: nat, value: seq<nat>) {
    forall i, t | 0 <= i < |value| && 0 <= t < |s.mem(Word(n, i))| && s.mem(Word(n, i))[t].val.att == k ::
      s.mem(Word(n, i))[t].val.x == value[i]
  }

  lemma AttemptWords(cfg: Cfg, s: Shared, n: nat, k: nat)
    requires Inv(cfg, s) && k < |s.log|
    ensures WordsOf(s, n, k, s.log[k].value)
  {
    forall i, t | 0 <= i < |s.log[k].value| && 0 <= t < |s.mem(Word(n, i))| && s.mem(Word(n, i))[t].val.att == k
      ensures s.mem(Word(n, i))[t].val.x == s.log[k].value[i]
    {
      assert MsgOk(cfg, s.mem, s.log, s.pub, Word(n, i), s.mem(Word(n, i))[t]);
    }
  }

  /**
   In every state of every run the ring has published exactly the arguments of the completed Stores, in order, and the
   word messages of position p's store are the words of argument p.
   */
  lemma ArgumentsArePublished(cfg: Cfg, run: seq<System>, acts: seq<Action>, i: nat)
    requires Trace(cfg, run, acts) && i <= |acts|
    ensures var (s, sent) := (run[i].shared, Sent(acts[..i]));
            && |s.pub| == |sent|
            && forall p | 0 <= p < |sent| :: IsPublished(s, p, sent[p]) && WordsOf(s, p % cfg.N, s.pub[p], sent[p])
  {
    SentKeeps(cfg, run, acts, i);
    var s, sent := run[i].shared, Sent(acts[..i]);
    forall p | 0 <= p < |sent| ensures IsPublished(s, p, sent[p]) && WordsOf(s, p % cfg.N, s.pub[p], sent[p]) {
      AttemptWords(cfg, s, p % cfg.N, s.pub[p]);
    }
  }

  // ---- one whole Store ----

  predicate EndsAStore(a: Action) {
    a == Write(StoreCursor) || a == Write(Crash) || (a.Write? && a.w.Begin?)
  }

  lemma {:induction false} StoreInTrace(acts: seq<Action>, b: nat, e: nat)
    requires b < e <= |acts| && acts[b].Write? && acts[b].w.Begin?
    requires forall j | b < j < e :: !EndsAStore(acts[j])
    ensures Argument(acts[..e]) == acts[b].w.value && Sent(acts[..e]) == Sent(acts[..b])
    decreases e
  {
    assert acts[..e][..e - 1] == acts[..e - 1];
    if b < e - 1 { StoreInTrace(acts, b, e - 1); }
  }

  lemma StoreIsSent(acts: seq<Action>, b: nat, e: nat)
    requires b < e < |acts| && acts[b].Write? && acts[b].w.Begin?
    requires acts[e] == Write(StoreCursor) && forall j | b < j < e :: !EndsAStore(acts[j])
    ensures Argument(acts[..e]) == acts[b].w.value && Sent(acts[..e]) == Sent(acts[..b])
    ensures Sent(acts[..e + 1]) == Sent(acts[..b]) + [acts[b].w.value]
  {
    StoreInTrace(acts, b, e);
    assert acts[..e + 1][..e] == acts[..e];
  }

  /** The newest messages of the cell of position p are those of a completed store of value. */
  ghost predicate CellHolds(cfg: Cfg, s: Shared, p: nat, value: seq<nat>)
    requires cfg.Valid()
  {
    var n := p % cfg.N;
    && Last(s.mem(Seq(n))).x % 2 == 0 && Last(s.mem(Seq(n))).x > 0
    && Last(s.mem(Index(n))).x == p
    && |value| == cfg.W && forall i | 0 <= i < cfg.W :: Last(s.mem(Word(n, i))).x == value[i]
  }

  lemma EvenHolds(cfg: Cfg, s: Shared)
    requires Inv(cfg, s) && s.pc.Even?
    ensures CellHolds(cfg, s, |s.pub|, s.log[Current(s)].value)
  {
    var n, k := s.pc.idx % cfg.N, Current(s);
    LastIsCurrent(cfg, s, Seq(n));
    var m := s.mem(Seq(n))[|s.mem(Seq(n))| - 1];
    assert PublishesData(cfg, s.mem, n, m);
    LastTagged(cfg, s, Index(n), m);
    forall i | 0 <= i < cfg.W ensures Last(s.mem(Word(n, i))).x == s.log[k].value[i] {
      LastTagged(cfg, s, Word(n, i), m);
    }
  }

  lemma LastTagged(cfg: Cfg, s: Shared, x: Loc, m: Msg<Loc, Val>)
    requires Inv(cfg, s) && (x.Index? || x.Word?) && Tag(s.mem(x), m.view(x)) >= Current(s) >= 1
    ensures Last(s.mem(x)).att == Current(s)
    ensures MsgOk(cfg, s.mem, s.log, s.pub, x, s.mem(x)[|s.mem(x)| - 1])
  {
    LastIsCurrent(cfg, s, x);
    assert HistoryOk(x, s.mem(x)) && TagsAscend(s.mem(x));
  }

  ghost predicate Publishes(cfg: Cfg, s: Shared, s2: Shared, value: seq<nat>)
    requires cfg.Valid()
  {
    && |s2.pub| == |s.pub| + 1 && Last(s2.mem(Cursor)).x == |s2.pub|
    && IsPublished(s2, |s.pub|, value) && CellHolds(cfg, s2, |s.pub|, value)
  }

  lemma CursorStoreLeavesCells(cfg: Cfg, s: Shared, p: nat, value: seq<nat>)
    requires Inv(cfg, s) && CanStep(cfg, s, StoreCursor) && CellHolds(cfg, s, p, value)
    ensures CellHolds(cfg, Step(cfg, s, StoreCursor), p, value)
    ensures Last(Step(cfg, s, StoreCursor).mem(Cursor)).x == |s.pub| + 1
  {
    LastIsCurrent(cfg, s, Cursor);
  }

  lemma CursorStorePublishes(cfg: Cfg, s: Shared, acts: seq<Action>)
    requires Inv(cfg, s) && SentInv(s, acts) && CanStep(cfg, s, StoreCursor)
    ensures Publishes(cfg, s, Step(cfg, s, StoreCursor), Argument(acts))
  {
    EvenHolds(cfg, s);
    CursorStoreLeavesCells(cfg, s, |s.pub|, Argument(acts));
    WriteKeepsSent(cfg, s, acts, StoreCursor);
    assert (acts + [Write(StoreCursor)])[..|acts|] == acts;
    assert IsPublished(Step(cfg, s, StoreCursor), |s.pub|, Sent(acts + [Write(StoreCursor)])[|s.pub|]);
  }

  lemma CursorStorePublishesAt(cfg: Cfg, run: seq<System>, acts: seq<Action>, e: nat)
    requires Trace(cfg, run, acts) && e < |acts| && acts[e] == Write(StoreCursor)
    ensures Publishes(cfg, run[e].shared, run[e + 1].shared, Argument(acts[..e]))
  {
    SentKeeps(cfg, run, acts, e);
    assert StepsTo(cfg, run[e], acts[e], run[e + 1]);
    CursorStorePublishes(cfg, run[e].shared, acts[..e]);
  }

  lemma SentIsPublished(cfg: Cfg, run: seq<System>, acts: seq<Action>, i: nat)
    requires Trace(cfg, run, acts) && i <= |acts|
    ensures |run[i].shared.pub| == |Sent(acts[..i])|
  {
    SentKeeps(cfg, run, acts, i);
  }

  /**
   A Store that comes to its end publishes its argument, and nothing else: one more position, whose cell then shows the
   position and every word of the argument, under an even sequence word.
   */
  lemma StorePublishesItsArgument(cfg: Cfg, run: seq<System>, acts: seq<Action>, b: nat, e: nat)
    requires Trace(cfg, run, acts) && b < e < |acts| && acts[b].Write? && acts[b].w.Begin?
    requires acts[e] == Write(StoreCursor) && forall j | b < j < e :: !EndsAStore(acts[j])
    ensures Sent(acts[..e + 1]) == Sent(acts[..b]) + [acts[b].w.value]
    ensures |run[e].shared.pub| == |run[b].shared.pub|
    ensures Publishes(cfg, run[e].shared, run[e + 1].shared, acts[b].w.value)
  {
    StoreIsSent(acts, b, e);
    SentIsPublished(cfg, run, acts, b);
    SentIsPublished(cfg, run, acts, e);
    CursorStorePublishesAt(cfg, run, acts, e);
  }

  // ---- what the readers' callers get ----

  /** The entries are the arguments of the Stores c, c - 1, ..., counted from one. */
  predicate NewestArguments(sent: seq<seq<nat>>, c: nat, out: seq<seq<nat>>) {
    |out| <= c <= |sent| && forall j | 0 <= j < |out| :: out[j] == sent[c - 1 - j]
  }

  lemma NewestFirstSent(s: Shared, acts: seq<Action>, c: nat, out: seq<seq<nat>>)
    requires SentInv(s, acts) && NewestFirst(s, c, out)
    ensures NewestArguments(Sent(acts), c, out)
  {
    forall j | 0 <= j < |out| ensures out[j] == Sent(acts)[c - 1 - j] {
      assert IsPublished(s, c - 1 - j, Sent(acts)[c - 1 - j]);
    }
  }

  lemma OutcomeSent(cfg: Cfg, run: seq<System>, acts: seq<Action>, i: nat, id: nat)
    requires Trace(cfg, run, acts) && i <= |acts|
    ensures match run[i].readers(id).outcome
            case Value(c, value, clean) => c >= 1 && (clean ==> NewestArguments(Sent(acts[..i]), c, [value]))
            case Taken(c, _, _, out, clean) => clean ==> NewestArguments(Sent(acts[..i]), c, out)
            case _ => true
  {
    SentKeeps(cfg, run, acts, i);
    var o := run[i].readers(id).outcome;
    assert OutcomeOk(cfg, run[i].shared, o);
    match o
    case Value(c, value, clean) => if clean { NewestFirstSent(run[i].shared, acts[..i], c, [value]); }
    case Taken(c, _, _, out, clean) => if clean { NewestFirstSent(run[i].shared, acts[..i], c, out); }
    case _ =>
  }

  /** A value returned for cursor c is the argument of the c-th completed Store. */
  lemma LoadReturnsAnArgument(cfg: Cfg, run: seq<System>, acts: seq<Action>, i: nat, id: nat)
    requires Trace(cfg, run, acts) && i <= |acts|
    requires run[i].readers(id).outcome.Value? && run[i].readers(id).outcome.clean
    ensures var (o, sent) := (run[i].readers(id).outcome, Sent(acts[..i]));
            1 <= o.c <= |sent| && o.value == sent[o.c - 1]
  {
    OutcomeSent(cfg, run, acts, i, id);
    assert [run[i].readers(id).outcome.value][0] == run[i].readers(id).outcome.value;
  }

  /** A snapshot under cursor c lists the arguments of the Stores c, c - 1, ... */
  lemma SnapshotReturnsArguments(cfg: Cfg, run: seq<System>, acts: seq<Action>, i: nat, id: nat)
    requires Trace(cfg, run, acts) && i <= |acts|
    requires run[i].readers(id).outcome.Taken? && run[i].readers(id).outcome.clean
    ensures NewestArguments(Sent(acts[..i]), run[i].readers(id).outcome.c, run[i].readers(id).outcome.out)
  {
    OutcomeSent(cfg, run, acts, i, id);
  }

  lemma {:induction false} NoCrashNoCrashed(cfg: Cfg, run: seq<System>, acts: seq<Action>, i: nat)
    requires Trace(cfg, run, acts) && Write(Crash) !in acts && i <= |acts|
    ensures !run[i].shared.pc.Crashed?
    decreases i
  {
    if i > 0 {
      NoCrashNoCrashed(cfg, run, acts, i - 1);
      assert StepsTo(cfg, run[i - 1], acts[i - 1], run[i]) && acts[i - 1] in acts;
    }
  }

  lemma OutcomePublished(cfg: Cfg, run: seq<System>, acts: seq<Action>, i: nat, id: nat)
    requires Trace(cfg, run, acts) && Write(Crash) !in acts && i <= |acts|
    ensures match run[i].readers(id).outcome
            case Value(c, value, _) => c >= 1 && NewestFirst(run[i].shared, c, [value])
            case Taken(c, _, _, out, _) => NewestFirst(run[i].shared, c, out)
            case Empty(c) => c == 0
            case _ => true
  {
    TraceIsRun(cfg, run, acts);
    forall j | 0 <= j < |run| ensures !run[j].shared.pc.Crashed? { NoCrashNoCrashed(cfg, run, acts, j); }
    CrashFreeReadsArePublished(cfg, run, i, id);
  }

  lemma NewestPublishedIsSent(cfg: Cfg, run: seq<System>, acts: seq<Action>, i: nat, c: nat, out: seq<seq<nat>>)
    requires Trace(cfg, run, acts) && i <= |acts| && NewestFirst(run[i].shared, c, out)
    ensures NewestArguments(Sent(acts[..i]), c, out)
  {
    SentKeeps(cfg, run, acts, i);
    NewestFirstSent(run[i].shared, acts[..i], c, out);
  }

  /** Without a writer crash whatever any call returns are arguments of completed Stores, and nothing means cursor zero. */
  lemma CrashFreeReadsReturnArguments(cfg: Cfg, run: seq<System>, acts: seq<Action>, i: nat, id: nat)
    requires Trace(cfg, run, acts) && Write(Crash) !in acts && i <= |acts|
    ensures match run[i].readers(id).outcome
            case Value(c, value, _) => c >= 1 && NewestArguments(Sent(acts[..i]), c, [value])
            case Taken(c, _, _, out, _) => NewestArguments(Sent(acts[..i]), c, out)
            case Empty(c) => c == 0
            case _ => true
  {
    OutcomePublished(cfg, run, acts, i, id);
    match run[i].readers(id).outcome
    case Value(c, value, _) => NewestPublishedIsSent(cfg, run, acts, i, c, [value]);
    case Taken(c, _, _, out, _) => NewestPublishedIsSent(cfg, run, acts, i, c, out);
    case _ =>
  }

  // ---- what one call did ----

  /** The verb of the reader's last call. */
  function LastCall(acts: seq<Action>, id: nat): Option<Verb> {
    if |acts| == 0 then None
    else
      match acts[|acts| - 1]
      case ReadBy(j, Call(verb)) => if j == id then Some(verb) else LastCall(acts[..|acts| - 1], id)
      case _ => LastCall(acts[..|acts| - 1], id)
  }

  /** How many cursor loads the reader's last call has made. */
  function CursorLoads(acts: seq<Action>, id: nat): nat {
    if |acts| == 0 then 0
    else
      var front := CursorLoads(acts[..|acts| - 1], id);
      match acts[|acts| - 1]
      case ReadBy(j, Call(_)) => if j == id then 0 else front
      case ReadBy(j, LoadCursor(_)) => if j == id then front + 1 else front
      case _ => front
  }

  /** Which cursor message the reader loaded last. */
  function Captured(acts: seq<Action>, id: nat): nat {
    if |acts| == 0 then 0
    else
      match acts[|acts| - 1]
      case ReadBy(j, LoadCursor(t)) => if j == id then t else Captured(acts[..|acts| - 1], id)
      case _ => Captured(acts[..|acts| - 1], id)
  }

  /** When the reader's last call began: the number of actions before it. */
  function CalledAt(acts: seq<Action>, id: nat): (at: nat)
    ensures at <= |acts|
  {
    if |acts| == 0 then 0
    else
      match acts[|acts| - 1]
      case ReadBy(j, Call(_)) => if j == id then |acts| - 1 else CalledAt(acts[..|acts| - 1], id)
      case _ => CalledAt(acts[..|acts| - 1], id)
  }

  /** A repair has taken the cell of position p back to never written. */
  ghost predicate Retracted(cfg: Cfg, s: Shared, p: nat)
    requires cfg.Valid()
  {
    exists t :: 0 < t < |s.mem(Seq(p % cfg.N))| && s.mem(Seq(p % cfg.N))[t].val.x == 0
  }

  /** The outcome is one of those of the verb, for the cursor c captured last. */
  predicate Fits(verb: Verb, attempt: nat, c: nat, o: Outcome) {
    match verb
    case Load => (o.Value? || o.Empty?) && o.c == c
    case LoadBounded(max) => (o.Value? || o.Empty? || (o.Stalled? && attempt == max)) && o.c == c
    case Snapshot(k) => o.Taken? && o.k == k && o.c == c
  }

  /** What a reader owes to its last call, its cursor loads in it, and the cursor message it loaded last. */
  ghost predicate CallInv(r: Reader, call: Option<Verb>, loads: nat, c: nat) {
    match call
    case None => r.pc.Resting? && r.outcome.NoCall?
    case Some(verb) =>
      && r.verb == verb
      && (verb.LoadBounded? ==> r.attempt <= verb.maxRetries) && (verb.Snapshot? ==> r.attempt == 0)
      && loads == (if r.pc.AtCursor? then r.attempt else r.attempt + 1)
      && match r.pc
         case Resting => Fits(verb, r.attempt, c, r.outcome)
         case AtCursor => true
         case _ => r.pc.c == c
  }

  lemma CopyStepKeepsCall(cfg: Cfg, mem: Mem, r: Reader, a: RStep, call: Option<Verb>, loads: nat, c: nat)
    requires CanRead(cfg, mem, r, a) && !a.Call? && !a.LoadCursor? && CallInv(r, call, loads, c)
    ensures CallInv(Read(cfg, mem, r, a), call, loads, c)
  {
  }

  lemma CursorStepKeepsCall(cfg: Cfg, s: Shared, r: Reader, t: nat, call: Option<Verb>, loads: nat, c: nat)
    requires Inv(cfg, s) && CanRead(cfg, s.mem, r, LoadCursor(t)) && CallInv(r, call, loads, c)
    ensures CallInv(Read(cfg, s.mem, r, LoadCursor(t)), call, loads + 1, t)
  {
    assert HistoryOk(Cursor, s.mem(Cursor));
  }

  lemma ReadKeepsCall(cfg: Cfg, s: Shared, r: Reader, acts: seq<Action>, id: nat, a: RStep)
    requires Inv(cfg, s) && CanRead(cfg, s.mem, r, a)
    requires CallInv(r, LastCall(acts, id), CursorLoads(acts, id), Captured(acts, id))
    ensures var more := acts + [ReadBy(id, a)];
            CallInv(Read(cfg, s.mem, r, a), LastCall(more, id), CursorLoads(more, id), Captured(more, id))
  {
    assert (acts + [ReadBy(id, a)])[..|acts|] == acts;
    match a
    case Call(_) =>
    case LoadCursor(t) => CursorStepKeepsCall(cfg, s, r, t, LastCall(acts, id), CursorLoads(acts, id), Captured(acts, id));
    case _ => CopyStepKeepsCall(cfg, s.mem, r, a, LastCall(acts, id), CursorLoads(acts, id), Captured(acts, id));
  }

  /** An action of the writer or of another reader. */
  lemma OthersKeepCall(acts: seq<Action>, a: Action, id: nat)
    requires a.ReadBy? ==> a.id != id
    ensures var more := acts + [a];
            && LastCall(more, id) == LastCall(acts, id) && CursorLoads(more, id) == CursorLoads(acts, id)
            && Captured(more, id) == Captured(acts, id) && CalledAt(more, id) == CalledAt(acts, id)
  {
    assert (acts + [a])[..|acts|] == acts;
  }

  lemma {:induction false} CallKeepsInTrace(cfg: Cfg, run: seq<System>, acts: seq<Action>, i: nat, id: nat)
    requires Trace(cfg, run, acts) && i <= |acts|
    ensures CallInv(run[i].readers(id), LastCall(acts[..i], id), CursorLoads(acts[..i], id), Captured(acts[..i], id))
    decreases i
  {
    if i > 0 {
      CallKeepsInTrace(cfg, run, acts, i - 1, id);
      SentKeeps(cfg, run, acts, i - 1);
      assert StepsTo(cfg, run[i - 1], acts[i - 1], run[i]);
      assert acts[..i] == acts[..i - 1] + [acts[i - 1]];
      var a := acts[i - 1];
      if a.ReadBy? && a.id == id {
        ReadKeepsCall(cfg, run[i - 1].shared, run[i - 1].readers(id), acts[..i - 1], id, a.a);
      } else {
        OthersKeepCall(acts[..i - 1], a, id);
      }
    }
  }

  /**
   A call that has come to its end yields one of the outcomes of its verb, with the caller's own k, for the cursor it
   captured last. A snapshot captures one. LoadBounded captures at most maxRetries + 1, and exactly that many when it
   gives up.
   */
  lemma CallsKeepTheirBudget(cfg: Cfg, run: seq<System>, acts: seq<Action>, i: nat, id: nat)
    requires Trace(cfg, run, acts) && i <= |acts| && LastCall(acts[..i], id).Some?
    ensures var (r, loads) := (run[i].readers(id), CursorLoads(acts[..i], id));
            match LastCall(acts[..i], id).value
            case Load => r.pc.Resting? ==> (r.outcome.Value? || r.outcome.Empty?) && r.outcome.c == Captured(acts[..i], id)
            case LoadBounded(max) =>
              && loads <= max + 1 && r.attempt <= max
              && (r.pc.Resting? ==> (r.outcome.Value? || r.outcome.Empty? || r.outcome.Stalled?)
                                    && r.outcome.c == Captured(acts[..i], id))
              && (r.pc.Resting? && r.outcome.Stalled? ==> loads == max + 1)
            case Snapshot(k) =>
              && loads <= 1
              && (r.pc.Resting? ==> r.outcome.Taken? && r.outcome.k == k && r.outcome.c == Captured(acts[..i], id))
  {
    CallKeepsInTrace(cfg, run, acts, i, id);
  }

  // ---- which cursor a call captures ----

  /** seen: what the reader had seen of the cursor when it called. */
  predicate Fresh(seen: nat, now: nat, loads: nat, c: nat, published: nat) {
    seen <= now && (loads > 0 ==> seen <= c <= published)
  }

  lemma ReadKeepsFresh(cfg: Cfg, s: Shared, r: Reader, acts: seq<Action>, id: nat, a: RStep, seen: nat)
    requires Inv(cfg, s) && RInv(cfg, s, r) && CanRead(cfg, s.mem, r, a) && !a.Call?
    requires Fresh(seen, r.th.cur(Cursor), CursorLoads(acts, id), Captured(acts, id), |s.pub|)
    ensures var more := acts + [ReadBy(id, a)];
            && CalledAt(more, id) == CalledAt(acts, id)
            && Fresh(seen, Read(cfg, s.mem, r, a).th.cur(Cursor), CursorLoads(more, id), Captured(more, id), |s.pub|)
  {
    assert (acts + [ReadBy(id, a)])[..|acts|] == acts;
    assert r.th.cur(Cursor) <= r.th.acq(Cursor);
  }

  lemma OthersKeepFresh(cfg: Cfg, y: System, acts: seq<Action>, id: nat, a: Action, seen: nat)
    requires SystemInv(cfg, y) && Enabled(cfg, y, a) && (a.ReadBy? ==> a.id != id)
    requires Fresh(seen, y.readers(id).th.cur(Cursor), CursorLoads(acts, id), Captured(acts, id), |y.shared.pub|)
    ensures var (z, more) := (Act(cfg, y, a), acts + [a]);
            && CalledAt(more, id) == CalledAt(acts, id)
            && Fresh(seen, z.readers(id).th.cur(Cursor), CursorLoads(more, id), Captured(more, id), |z.shared.pub|)
  {
    OthersKeepCall(acts, a, id);
    if a.Write? { StepKeeps(cfg, y.shared, a.w); }
  }

  /** What the reader had seen of the cursor when its call began. */
  ghost function SeenAtCall(run: seq<System>, acts: seq<Action>, id: nat): nat
    requires |run| > |acts|
  {
    run[CalledAt(acts, id)].readers(id).th.cur(Cursor)
  }

  ghost predicate FreshAt(run: seq<System>, acts: seq<Action>, i: nat, id: nat, seen: nat)
    requires |run| == |acts| + 1 && i <= |acts|
  {
    Fresh(seen, run[i].readers(id).th.cur(Cursor), CursorLoads(acts[..i], id), Captured(acts[..i], id),
          |run[i].shared.pub|)
  }

  lemma OneActionKeepsFresh(cfg: Cfg, run: seq<System>, acts: seq<Action>, i: nat, id: nat, seen: nat)
    requires Trace(cfg, run, acts) && i < |acts| && FreshAt(run, acts, i, id, seen)
    requires !(acts[i].ReadBy? && acts[i].id == id && acts[i].a.Call?)
    ensures FreshAt(run, acts, i + 1, id, seen) && CalledAt(acts[..i + 1], id) == CalledAt(acts[..i], id)
  {
    var y, a := run[i], acts[i];
    SentKeeps(cfg, run, acts, i);
    assert StepsTo(cfg, y, a, run[i + 1]);
    assert acts[..i + 1] == acts[..i] + [a];
    if a.ReadBy? && a.id == id {
      ReadKeepsFresh(cfg, y.shared, y.readers(id), acts[..i], id, a.a, seen);
    } else {
      OthersKeepFresh(cfg, y, acts[..i], id, a, seen);
    }
  }

  lemma {:induction false} CapturesAreFresh(cfg: Cfg, run: seq<System>, acts: seq<Action>, i: nat, id: nat)
    requires Trace(cfg, run, acts) && i <= |acts|
    ensures FreshAt(run, acts, i, id, SeenAtCall(run, acts[..i], id))
    decreases i
  {
    if i > 0 {
      var a := acts[i - 1];
      CapturesAreFresh(cfg, run, acts, i - 1, id);
      if a.ReadBy? && a.id == id && a.a.Call? {
        assert StepsTo(cfg, run[i - 1], a, run[i]);
        assert acts[..i][..i - 1] == acts[..i - 1];
      } else {
        OneActionKeepsFresh(cfg, run, acts, i - 1, id, SeenAtCall(run, acts[..i - 1], id));
      }
    }
  }

  /** The cursor of a finished call was loaded within the call: it is no older than what the reader had seen before. */
  lemma OutcomeIsFresh(cfg: Cfg, run: seq<System>, acts: seq<Action>, i: nat, id: nat)
    requires Trace(cfg, run, acts) && i <= |acts| && LastCall(acts[..i], id).Some? && run[i].readers(id).pc.Resting?
    ensures var o := run[i].readers(id).outcome;
            !o.NoCall? && SeenAtCall(run, acts[..i], id) <= o.c <= |Sent(acts[..i])|
  {
    CallKeepsInTrace(cfg, run, acts, i, id);
    CapturesAreFresh(cfg, run, acts, i, id);
    SentIsPublished(cfg, run, acts, i);
  }

  // ---- a read-latest call that returns nothing ----

  lemma RetractedStays(cfg: Cfg, s: Shared, s2: Shared, p: nat)
    requires cfg.Valid() && Grows(s.mem, s2.mem) && Retracted(cfg, s, p)
    ensures Retracted(cfg, s2, p)
  {
    var x := Seq(p % cfg.N);
    var t :| 0 < t < |s.mem(x)| && s.mem(x)[t].val.x == 0;
    assert s2.mem(x)[t] == s.mem(x)[t];
  }

  /** A published position's cell is found zero only if a repair retracted it. */
  lemma ZeroMeansRetracted(cfg: Cfg, s: Shared, r: Reader, t: nat)
    requires Inv(cfg, s) && RInv(cfg, s, r) && CanSeq1(cfg, s.mem, r, t)
    requires s.mem(CellSeq(cfg, r.pc.c, r.pc.i))[t].val.x == 0
    ensures Retracted(cfg, s, r.pc.c - 1 - r.pc.i)
  {
    var p := r.pc.c - 1 - r.pc.i;
    var x := CellSeq(cfg, r.pc.c, r.pc.i);
    assert HistoryOk(x, s.mem(x));
    assert Closed(s.mem(x), r.th.cur(x), s.pub[p]);
    ClosedStays(s.mem(x), r.th.cur(x), t, s.pub[p]);
    assert t > 0;
  }

  ghost predicate EmptyOk(cfg: Cfg, s: Shared, o: Outcome)
    requires cfg.Valid()
  {
    o.Empty? && o.c > 0 ==> Retracted(cfg, s, o.c - 1)
  }

  lemma Seq1KeepsEmptyOk(cfg: Cfg, s: Shared, r: Reader, t: nat)
    requires Inv(cfg, s) && RInv(cfg, s, r) && CanSeq1(cfg, s.mem, r, t) && EmptyOk(cfg, s, r.outcome)
    ensures EmptyOk(cfg, s, Seq1(cfg, s.mem, r, t).outcome)
  {
    if s.mem(CellSeq(cfg, r.pc.c, r.pc.i))[t].val.x == 0 && !r.verb.Snapshot? {
      ZeroMeansRetracted(cfg, s, r, t);
      assert r.pc.i < Limit(cfg, r.verb, r.pc.c);
    }
  }

  lemma OtherReadsKeepEmptyOk(cfg: Cfg, mem: Mem, r: Reader, a: RStep)
    requires CanRead(cfg, mem, r, a) && !a.LoadSeq1?
    ensures var o := Read(cfg, mem, r, a).outcome; o == r.outcome || !o.Empty? || o.c == 0
  {
  }

  lemma ReadKeepsEmptyOk(cfg: Cfg, s: Shared, r: Reader, a: RStep)
    requires Inv(cfg, s) && RInv(cfg, s, r) && CanRead(cfg, s.mem, r, a) && EmptyOk(cfg, s, r.outcome)
    ensures EmptyOk(cfg, s, Read(cfg, s.mem, r, a).outcome)
  {
    match a
    case LoadSeq1(t) => Seq1KeepsEmptyOk(cfg, s, r, t);
    case _ => OtherReadsKeepEmptyOk(cfg, s.mem, r, a);
  }

  lemma WriteKeepsEmptyOk(cfg: Cfg, s: Shared, w: WStep, o: Outcome)
    requires Inv(cfg, s) && CanStep(cfg, s, w) && EmptyOk(cfg, s, o)
    ensures EmptyOk(cfg, Step(cfg, s, w), o)
  {
    StepKeeps(cfg, s, w);
    if o.Empty? && o.c > 0 { RetractedStays(cfg, s, Step(cfg, s, w), o.c - 1); }
  }

  /** A read-latest call returns nothing only for cursor zero, or if a repair retracted the cell of its newest value. */
  lemma {:induction false} EmptyMeansRetracted(cfg: Cfg, run: seq<System>, acts: seq<Action>, i: nat, id: nat)
    requires Trace(cfg, run, acts) && i <= |acts|
    ensures EmptyOk(cfg, run[i].shared, run[i].readers(id).outcome)
    decreases i
  {
    if i > 0 {
      EmptyMeansRetracted(cfg, run, acts, i - 1, id);
      SentKeeps(cfg, run, acts, i - 1);
      assert StepsTo(cfg, run[i - 1], acts[i - 1], run[i]);
      var o := run[i - 1].readers(id).outcome;
      match acts[i - 1] {
        case Write(w) => WriteKeepsEmptyOk(cfg, run[i - 1].shared, w, o);
        case ReadBy(j, a) =>
          if j == id { ReadKeepsEmptyOk(cfg, run[i - 1].shared, run[i - 1].readers(id), a); }
      }
    }
  }
}
