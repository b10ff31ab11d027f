/**
 The worker inbox (examples/concurrency_worker_inbox_example.cpp): one producer that pushes, notifies and finally
 shuts down, one worker that drains, checks the flag and parks.

 It runs on the weak memory of SpscWeak: the queue is that queue, step by step, and the epoch of the eventcount and
 the shutdown flag are two more atomics that only the producer stores to. Its fetch_add on the epoch is therefore
 a release store of the next count. What a bump makes visible follows from the views of its message.
 */
module Inbox {
  import opened WeakMemory
  import Q = SpscWeak

  const WORD: nat := 0x1_0000_0000

  const EPOCH: Q.Loc := Q.Aux(0)
  const FLAG: Q.Loc := Q.Aux(1)

  datatype Option<T> = None | Some(value: T)

  datatype PPc = Pushing | Pushed | Bumped | Closed | ClosedBumped | Joining

  datatype WPc =
    | Draining
    | FlagBeforePark
    | Entering
    | SizeHead(last: bool)
    | SizeTail(last: bool, head: nat)
    | FlagInWait(last: bool)
    | Timing
    | Comparing
    | Asleep(at: nat)
    | Exited

  /** i: the loop counter, and the command that the attempt sends. */
  datatype Producer = Producer(pc: PPc, i: nat, sent: nat, rejected: nat)

  /** gen: the epoch loaded last. */
  datatype Worker = Worker(pc: WPc, gen: nat)

  datatype State = State(q: Q.State<nat>, p: Producer, w: Worker)

  /** limit: how many commands the producer tries to send. */
  datatype Cfg = Cfg(queue: Q.Cfg<nat>, limit: nat) {
    predicate Valid() { queue.cap >= 1 && limit + 1 < WORD }
  }

  datatype Event =
    | Push(step: Q.Event<nat>)
    | Bump
    | Wake
    | SetShutdown
    | Pop(step: Q.Event<nat>)
    | LoadFlag(t: nat)
    | LoadEpoch(t: nat)
    | LoadHead(t: nat)
    | LoadTail(t: nat)
    | LoadFlagInWait(t: nat)
    | ReadClock(expired: bool)
    | Compare
    | WakeEarly

  function Init(g: Cfg): State {
    State(Q.Init(g.queue), Producer(Pushing, 0, 0, 0), Worker(Draining, 0))
  }

  /** The number of bumps so far. */
  function Epoch(s: State): nat {
    if |s.q.mem(EPOCH)| > 0 then |s.q.mem(EPOCH)| - 1 else 0
  }

  predicate Shutdown(s: State) {
    |s.q.mem(FLAG)| > 1
  }

  predicate OfTryPush(e: Q.Event<nat>) {
    e.PushLoadTail? || e.PushLoadHead? || e.WriteCell? || e.StoreTail?
  }

  predicate OfTryPop(e: Q.Event<nat>) {
    e.PopLoadHead? || e.PopLoadTail? || e.ReadCell? || e.StoreHead?
  }

  /** The queue step that an event takes, if any. */
  function QueueStep(e: Event): Q.Event<nat>
    requires !(e.Wake? || e.ReadClock? || e.Compare? || e.WakeEarly?)
  {
    match e
    case Push(step) => step
    case Pop(step) => step
    case Bump => Q.Announce(0)
    case SetShutdown => Q.Announce(1)
    case LoadFlag(t) => Q.Listen(1, t)
    case LoadFlagInWait(t) => Q.Listen(1, t)
    case LoadEpoch(t) => Q.Listen(0, t)
    case LoadHead(t) => Q.PeekHead(t)
    case LoadTail(t) => Q.PeekTail(t)
  }

  predicate Control(g: Cfg, s: State, e: Event) {
    match e
    case Push(step) => s.p.pc.Pushing? && s.p.i < g.limit && OfTryPush(step) && (step.PushLoadTail? ==> step.value == s.p.i)
    case Bump => s.p.pc.Pushed? || s.p.pc.Closed?
    case Wake => s.p.pc.Bumped? || s.p.pc.ClosedBumped?
    case SetShutdown => s.p.pc.Pushing? && s.p.i >= g.limit
    case Pop(step) => s.w.pc.Draining? && OfTryPop(step)
    case LoadFlag(_) => s.w.pc.FlagBeforePark?
    case LoadEpoch(_) => s.w.pc.Entering?
    case LoadHead(_) => s.w.pc.SizeHead?
    case LoadTail(_) => s.w.pc.SizeTail?
    case LoadFlagInWait(_) => s.w.pc.FlagInWait?
    case ReadClock(_) => s.w.pc.Timing?
    case Compare => s.w.pc.Comparing?
    case WakeEarly => s.w.pc.Asleep?
  }

  predicate Local(e: Event) {
    e.Wake? || e.ReadClock? || e.Compare? || e.WakeEarly?
  }

  predicate CanStep(g: Cfg, s: State, e: Event) {
    Control(g, s, e) && (!Local(e) ==> Q.CanStep(g.queue, s.q, QueueStep(e)))
  }

  function Size(head: nat, tail: nat): nat {
    if tail >= head then tail - head else 0
  }

  /** The count that message t of x stores. */
  function Loaded(q: Q.State<nat>, x: Q.Loc, t: nat): nat {
    Q.TagAt(q.mem(x), t)
  }

  function Producing(p: Producer, e: Event, q2: Q.State<nat>): Producer {
    match e
    case Push(step) =>
      if step.StoreTail? then p.(pc := Pushed, sent := p.sent + 1)
      else if step.PushLoadHead? && q2.ppc.PIdle? then p.(i := p.i + 1, rejected := p.rejected + 1)
      else p
    case Bump => p.(pc := if p.pc.Pushed? then Bumped else ClosedBumped)
    case Wake => if p.pc.Bumped? then p.(pc := Pushing, i := p.i + 1) else p.(pc := Joining)
    case SetShutdown => p.(pc := Closed)
    case _ => p
  }

  function Working(g: Cfg, s: State, e: Event, q2: Q.State<nat>): Worker
    requires Control(g, s, e)
  {
    match e
    case Pop(step) => s.w.(pc := if step.PopLoadTail? && q2.cpc.CIdle? then FlagBeforePark else Draining)
    case Wake => if s.w.pc.Asleep? then s.w.(pc := Entering) else s.w
    case LoadFlag(t) => s.w.(pc := if Loaded(s.q, FLAG, t) != 0 then Exited else Entering)
    case LoadEpoch(t) => Worker(SizeHead(false), Loaded(s.q, EPOCH, t))
    case LoadHead(t) => s.w.(pc := SizeTail(s.w.pc.last, Loaded(s.q, Q.Head, t)))
    case LoadTail(t) =>
      s.w.(pc := if Size(s.w.pc.head, Loaded(s.q, Q.Tail, t)) != 0 then Draining else FlagInWait(s.w.pc.last))
    case LoadFlagInWait(t) => s.w.(pc := if Loaded(s.q, FLAG, t) != 0 || s.w.pc.last then Draining else Timing)
    case ReadClock(expired) => s.w.(pc := if expired then SizeHead(true) else Comparing)
    case Compare => s.w.(pc := if Epoch(s) % WORD == s.w.gen % WORD then Asleep(Epoch(s)) else Entering)
    case WakeEarly => s.w.(pc := Entering)
    case _ => s.w
  }

  function Step(g: Cfg, s: State, e: Event): State
    requires CanStep(g, s, e)
  {
    var q2 := if Local(e) then s.q else Q.Step(g.queue, s.q, QueueStep(e));
    State(q2, Producing(s.p, e, q2), Working(g, s, e, q2))
  }

  ghost predicate Run(g: Cfg, s: State, es: seq<Event>, t: State)
    decreases |es|
  {
    if |es| == 0 then s == t else
      CanStep(g, s, es[0]) && Run(g, Step(g, s, es[0]), es[1..], t)
  }

  // ---- the invariant ----

  predicate OwesBump(p: Producer) {
    p.pc.Pushed? || p.pc.Closed?
  }

  predicate OwesWake(p: Producer) {
    p.pc.Bumped? || p.pc.ClosedBumped?
  }

  predicate Closing(p: Producer) {
    p.pc.Closed? || p.pc.ClosedBumped? || p.pc.Joining?
  }

  /** The attempt of the loop counter has been accepted but not yet counted off. */
  predicate Accepted(p: Producer) {
    p.pc.Pushed? || p.pc.Bumped?
  }

  /** The value of the TryPush in progress. */
  predicate Sends(pc: Q.PPc<nat>, i: nat) {
    match pc
    case PIdle => true
    case PTail(value, _) => value == i
    case PRoom(value, _, _) => value == i
    case PWritten(value, _) => value == i
  }

  /** Accepted commands are in the order of the loop counter. */
  predicate InOrder(pushed: seq<nat>, bound: nat) {
    && (forall j, k | 0 <= j < k < |pushed| :: pushed[j] < pushed[k])
    && (forall j | 0 <= j < |pushed| :: pushed[j] < bound)
  }

  predicate CountsInv(g: Cfg, s: State) {
    && s.p.sent == |s.q.pushed|
    && s.p.sent + s.p.rejected == s.p.i + (if Accepted(s.p) then 1 else 0)
    && s.p.i <= g.limit && (Accepted(s.p) || !s.q.ppc.PIdle? ==> s.p.i < g.limit)
    && (Closing(s.p) ==> s.p.i == g.limit)
    && (!s.p.pc.Pushing? ==> s.q.ppc.PIdle?)
    && Sends(s.q.ppc, s.p.i)
    && InOrder(s.q.pushed, s.p.i + if Accepted(s.p) then 1 else 0)
  }

  /** What message t of x lets its reader see of y. */
  function Shows(q: Q.State<nat>, x: Q.Loc, t: nat, y: Q.Loc): nat {
    if t < |q.mem(x)| then q.mem(x)[t].view(y) else 0
  }

  predicate PostsInv(g: Cfg, s: State) {
    && |s.q.mem(EPOCH)| >= 1
    && |s.q.mem(FLAG)| == (if Closing(s.p) then 2 else 1)
    && Shows(s.q, FLAG, 0, Q.Tail) == 0 && Shows(s.q, FLAG, 0, FLAG) == 0
    && Epoch(s) + (if OwesBump(s.p) then 1 else 0) == s.p.sent + (if Closing(s.p) then 1 else 0)
    && (!OwesBump(s.p) ==>
          && Shows(s.q, EPOCH, Epoch(s), Q.Tail) == |s.q.pushed|
          && Shows(s.q, EPOCH, Epoch(s), FLAG) == |s.q.mem(FLAG)| - 1)
  }

  predicate SawNothing(pc: WPc) {
    pc.Timing? || pc.Comparing? || pc.Asleep?
  }

  predicate Waiting(pc: WPc) {
    pc.SizeHead? || pc.SizeTail? || pc.FlagInWait? || SawNothing(pc)
  }

  predicate WorkerInv(s: State) {
    && (!s.w.pc.Draining? ==> s.q.cpc.CIdle?)
    && s.w.gen < |s.q.mem(EPOCH)|
    && (Waiting(s.w.pc) ==>
          Shows(s.q, EPOCH, s.w.gen, Q.Tail) <= s.q.c.cur(Q.Tail) && Shows(s.q, EPOCH, s.w.gen, FLAG) <= s.q.c.cur(FLAG))
    && (s.w.pc.SizeTail? ==> s.w.pc.head == |s.q.popped|)
    && (s.w.pc.FlagBeforePark? || s.w.pc.FlagInWait? || SawNothing(s.w.pc) ==> s.q.c.cur(Q.Tail) == |s.q.popped|)
    && (SawNothing(s.w.pc) ==> s.q.c.cur(FLAG) == 0)
    && (s.w.pc.Asleep? ==> s.w.gen <= s.w.pc.at <= Epoch(s) && s.w.pc.at % WORD == s.w.gen % WORD)
    && (s.w.pc.Asleep? && s.w.pc.at < Epoch(s) ==> OwesWake(s.p))
    && (s.w.pc.Exited? ==> Closing(s.p))
  }

  ghost predicate Inv(g: Cfg, s: State) {
    g.Valid() && Q.Inv(g.queue, s.q) && CountsInv(g, s) && PostsInv(g, s) && WorkerInv(s)
  }

  // ---- what one queue step leaves alone ----

  lemma PushStepFrame(g: Q.Cfg<nat>, q: Q.State<nat>, e: Q.Event<nat>)
    requires Q.CanStep(g, q, e) && OfTryPush(e)
    ensures var q2 := Q.Step(g, q, e);
            && q2.c == q.c && q2.cpc == q.cpc && q2.popped == q.popped
            && (forall i :: q2.mem(Q.Aux(i)) == q.mem(Q.Aux(i)))
            && q2.pushed == (if e.StoreTail? then q.pushed + [q.ppc.value] else q.pushed)
            && (e.StoreTail? ==> q2.ppc.PIdle?)
  {
  }

  lemma PopStepFrame(g: Q.Cfg<nat>, q: Q.State<nat>, e: Q.Event<nat>)
    requires Q.CanStep(g, q, e) && OfTryPop(e)
    ensures var q2 := Q.Step(g, q, e);
            && q2.p == q.p && q2.ppc == q.ppc && q2.pushed == q.pushed
            && (forall i :: q2.mem(Q.Aux(i)) == q.mem(Q.Aux(i)))
  {
  }

  lemma AnnounceFrame(g: Q.Cfg<nat>, q: Q.State<nat>, i: nat)
    requires Q.CanStep(g, q, Q.Announce(i))
    ensures var q2 := Q.Step(g, q, Q.Announce(i));
            && q2.c == q.c && q2.cpc == q.cpc && q2.popped == q.popped && q2.pushed == q.pushed && q2.ppc == q.ppc
            && (forall j | j != i :: q2.mem(Q.Aux(j)) == q.mem(Q.Aux(j)))
            && |q2.mem(Q.Aux(i))| == |q.mem(Q.Aux(i))| + 1 && q.mem(Q.Aux(i)) <= q2.mem(Q.Aux(i))
            && forall y | y != Q.Aux(i) :: Shows(q2, Q.Aux(i), |q.mem(Q.Aux(i))|, y) == q.p.cur(y)
  {
  }

  // ---- every step keeps the invariant ----

  lemma PushKeeps(g: Cfg, s: State, e: Q.Event<nat>)
    requires Inv(g, s) && CanStep(g, s, Push(e))
    ensures Inv(g, Step(g, s, Push(e)))
  {
    Q.StepKeeps(g.queue, s.q, e);
    PushStepFrame(g.queue, s.q, e);
  }

  lemma PopKeeps(g: Cfg, s: State, e: Q.Event<nat>)
    requires Inv(g, s) && CanStep(g, s, Pop(e))
    ensures Inv(g, Step(g, s, Pop(e)))
  {
    Q.StepKeeps(g.queue, s.q, e);
    PopStepFrame(g.queue, s.q, e);
    ProducerUnmoved(g, s, Step(g, s, Pop(e)));
    PopWorker(g, s, e);
  }

  lemma PopWorker(g: Cfg, s: State, e: Q.Event<nat>)
    requires Inv(g, s) && CanStep(g, s, Pop(e))
    ensures WorkerInv(Step(g, s, Pop(e)))
  {
    PopStepFrame(g.queue, s.q, e);
    if e.PopLoadTail? { Q.TailShowsItself(g.queue, s.q, e.t); }
  }

  lemma BumpKeeps(g: Cfg, s: State)
    requires Inv(g, s) && CanStep(g, s, Bump)
    ensures Inv(g, Step(g, s, Bump))
  {
    Q.StepKeeps(g.queue, s.q, Q.Announce(0));
    AnnounceFrame(g.queue, s.q, 0);
    assert Q.Newest(s.q, s.q.p, FLAG);
  }

  lemma SetShutdownKeeps(g: Cfg, s: State)
    requires Inv(g, s) && CanStep(g, s, SetShutdown)
    ensures Inv(g, Step(g, s, SetShutdown))
  {
    Q.StepKeeps(g.queue, s.q, Q.Announce(1));
    AnnounceFrame(g.queue, s.q, 1);
  }

  lemma LocalKeeps(g: Cfg, s: State, e: Event)
    requires Inv(g, s) && CanStep(g, s, e) && Local(e)
    ensures Inv(g, Step(g, s, e))
  {
  }

  predicate Loads(e: Event) {
    e.LoadFlag? || e.LoadEpoch? || e.LoadHead? || e.LoadTail? || e.LoadFlagInWait?
  }

  /** A load changes nothing but the worker's views, which only grow. */
  lemma LoadFrame(g: Q.Cfg<nat>, q: Q.State<nat>, e: Q.Event<nat>)
    requires Q.CanStep(g, q, e) && (e.Listen? || e.PeekHead? || e.PeekTail?)
    ensures var q2 := Q.Step(g, q, e); q2 == q.(c := q2.c) && forall l :: q.c.cur(l) <= q2.c.cur(l)
  {
  }

  /** What a load of one of the producer's counters returns, and lets its reader see. */
  lemma ListenShows(g: Q.Cfg<nat>, q: Q.State<nat>, i: nat, t: nat)
    requires Q.Inv(g, q) && Q.CanStep(g, q, Q.Listen(i, t))
    ensures Loaded(q, Q.Aux(i), t) == t < |q.mem(Q.Aux(i))|
    ensures var q2 := Q.Step(g, q, Q.Listen(i, t));
            && (forall y :: Shows(q, Q.Aux(i), t, y) <= q2.c.cur(y))
            && (forall y | y != Q.Aux(i) && Shows(q, Q.Aux(i), t, y) <= q.c.cur(y) :: q2.c.cur(y) == q.c.cur(y))
            && (Shows(q, Q.Aux(i), t, Q.Aux(i)) <= t ==> q2.c.cur(Q.Aux(i)) == t)
  {
    Q.LastOf(g, q, Q.Aux(i));
  }

  lemma PeekTells(g: Q.Cfg<nat>, q: Q.State<nat>, t: nat)
    requires Q.Inv(g, q)
    ensures Q.CanStep(g, q, Q.PeekHead(t)) ==> Loaded(q, Q.Head, t) == |q.popped|
    ensures Q.CanStep(g, q, Q.PeekTail(t)) ==>
          Loaded(q, Q.Tail, t) == t == Q.Step(g, q, Q.PeekTail(t)).c.cur(Q.Tail) && |q.popped| <= t
  {
    Q.LastOf(g, q, Q.Head);
    Q.LastOf(g, q, Q.Tail);
  }

  lemma LoadFlagKeeps(g: Cfg, s: State, t: nat)
    requires Inv(g, s) && CanStep(g, s, LoadFlag(t))
    ensures WorkerInv(Step(g, s, LoadFlag(t)))
  {
    LoadFrame(g.queue, s.q, Q.Listen(1, t));
    ListenShows(g.queue, s.q, 1, t);
  }

  lemma LoadFlagInWaitKeeps(g: Cfg, s: State, t: nat)
    requires Inv(g, s) && CanStep(g, s, LoadFlagInWait(t))
    ensures WorkerInv(Step(g, s, LoadFlagInWait(t)))
  {
    LoadFrame(g.queue, s.q, Q.Listen(1, t));
    ListenShows(g.queue, s.q, 1, t);
  }

  lemma LoadEpochKeeps(g: Cfg, s: State, t: nat)
    requires Inv(g, s) && CanStep(g, s, LoadEpoch(t))
    ensures WorkerInv(Step(g, s, LoadEpoch(t)))
  {
    LoadFrame(g.queue, s.q, Q.Listen(0, t));
    ListenShows(g.queue, s.q, 0, t);
  }

  lemma LoadSizeKeeps(g: Cfg, s: State, e: Event)
    requires Inv(g, s) && CanStep(g, s, e) && (e.LoadHead? || e.LoadTail?)
    ensures WorkerInv(Step(g, s, e))
  {
    LoadFrame(g.queue, s.q, QueueStep(e));
    PeekTells(g.queue, s.q, e.t);
  }

  lemma LoadKeeps(g: Cfg, s: State, e: Event)
    requires Inv(g, s) && CanStep(g, s, e) && Loads(e)
    ensures Inv(g, Step(g, s, e))
  {
    Q.StepKeeps(g.queue, s.q, QueueStep(e));
    LoadFrame(g.queue, s.q, QueueStep(e));
    LoadWorker(g, s, e);
    ProducerUnmoved(g, s, Step(g, s, e));
  }

  lemma LoadWorker(g: Cfg, s: State, e: Event)
    requires Inv(g, s) && CanStep(g, s, e) && Loads(e)
    ensures WorkerInv(Step(g, s, e))
  {
    match e
    case LoadEpoch(t) => LoadEpochKeeps(g, s, t);
    case LoadFlag(t) => LoadFlagKeeps(g, s, t);
    case LoadFlagInWait(t) => LoadFlagInWaitKeeps(g, s, t);
    case _ => LoadSizeKeeps(g, s, e);
  }

  /** What concerns the producer and its counters does not depend on the worker. */
  lemma ProducerUnmoved(g: Cfg, s: State, s2: State)
    requires CountsInv(g, s) && PostsInv(g, s)
    requires s2.p == s.p && s2.q.ppc == s.q.ppc && s2.q.pushed == s.q.pushed
    requires s2.q.mem(EPOCH) == s.q.mem(EPOCH) && s2.q.mem(FLAG) == s.q.mem(FLAG)
    ensures CountsInv(g, s2) && PostsInv(g, s2)
  {
  }

  lemma StepKeeps(g: Cfg, s: State, e: Event)
    requires Inv(g, s) && CanStep(g, s, e)
    ensures Inv(g, Step(g, s, e))
  {
    if Local(e) { LocalKeeps(g, s, e); }
    else if Loads(e) { LoadKeeps(g, s, e); }
    else {
      match e
      case Push(step) => PushKeeps(g, s, step);
      case Pop(step) => PopKeeps(g, s, step);
      case Bump => BumpKeeps(g, s);
      case SetShutdown => SetShutdownKeeps(g, s);
    }
  }

  lemma {:induction false} RunKeeps(g: Cfg, s: State, es: seq<Event>, t: State)
    requires Inv(g, s) && Run(g, s, es, t)
    ensures Inv(g, t)
    decreases |es|
  {
    if |es| > 0 {
      StepKeeps(g, s, es[0]);
      RunKeeps(g, Step(g, s, es[0]), es[1..], t);
    }
  }

  lemma InitInv(g: Cfg)
    requires g.Valid()
    ensures Inv(g, Init(g))
  {
    Q.InitInv(g.queue);
  }

  // ---- what every run satisfies ----

  lemma AsleepIsOwed(g: Cfg, s: State)
    requires Inv(g, s) && s.w.pc.Asleep?
    requires |s.q.popped| < |s.q.pushed| || Shutdown(s)
    ensures OwesBump(s.p) || OwesWake(s.p)
  {
    assert s.w.pc.at == s.w.gen;
  }

  /** The worker never sleeps over a non-empty queue or a set flag, unless the producer has still to bump or to wake. */
  lemma SleeperIsOwedAWake(g: Cfg, es: seq<Event>, s: State)
    requires g.Valid() && Run(g, Init(g), es, s) && s.w.pc.Asleep?
    requires |s.q.popped| < |s.q.pushed| || Shutdown(s)
    ensures OwesBump(s.p) || OwesWake(s.p)
  {
    InitInv(g);
    RunKeeps(g, Init(g), es, s);
    AsleepIsOwed(g, s);
  }

  /** Once nothing is owed and the flag is set, a worker that found neither work nor flag has seen an older epoch. */
  lemma JoiningIsSeen(g: Cfg, s: State)
    requires Inv(g, s) && s.p.pc.Joining?
    ensures SawNothing(s.w.pc) ==> s.w.gen < Epoch(s) && Epoch(s) % WORD != s.w.gen % WORD
    ensures !s.w.pc.Asleep?
  {
    if SawNothing(s.w.pc) {
      assert s.w.gen != Epoch(s);
      assert Epoch(s) < WORD;
    }
  }

  /** While the producer joins, the worker is awake and cannot fall asleep again. */
  lemma JoinNeverWaitsForASleeper(g: Cfg, es: seq<Event>, s: State)
    requires g.Valid() && Run(g, Init(g), es, s) && s.p.pc.Joining?
    ensures !s.w.pc.Asleep?
    ensures CanStep(g, s, Compare) ==> Step(g, s, Compare).w.pc.Entering?
  {
    InitInv(g);
    RunKeeps(g, Init(g), es, s);
    JoiningIsSeen(g, s);
  }

  /**
   What the worker popped is a prefix of what the queue accepted, in the order of sending; at most the capacity waits;
   and once the producer joins, every attempt was either accepted or rejected.
   */
  lemma NothingIsLost(g: Cfg, es: seq<Event>, s: State)
    requires g.Valid() && Run(g, Init(g), es, s)
    ensures |s.q.popped| <= |s.q.pushed| && s.q.pushed == s.q.popped + s.q.pushed[|s.q.popped|..]
    ensures |s.q.pushed| - |s.q.popped| <= g.queue.cap
    ensures InOrder(s.q.pushed, g.limit)
    ensures s.p.pc.Joining? ==> s.p.sent == |s.q.pushed| && s.p.sent + s.p.rejected == g.limit
    ensures s.w.pc.Exited? ==> s.p.i == g.limit
  {
    InitInv(g);
    RunKeeps(g, Init(g), es, s);
  }

  // ---- the worker in program order ----

  predicate ByWorker(e: Event) {
    !(e.Push? || e.Bump? || e.Wake? || e.SetShutdown?)
  }

  /** The worker's last event of es, or `last` if it has none there. */
  function LastOfWorker(es: seq<Event>, last: Option<Event>): Option<Event> {
    if |es| == 0 then last else LastOfWorker(es[1..], if ByWorker(es[0]) then Some(es[0]) else last)
  }

  predicate SawFlag(last: Option<Event>) {
    last.Some? && last.value.LoadFlag? && last.value.t > 0
  }

  predicate SawWork(last: Option<Event>, popped: nat) {
    last.Some? && last.value.LoadTail? && last.value.t > popped
  }

  predicate SawFlagInWait(last: Option<Event>) {
    last.Some? && last.value.LoadFlagInWait? && last.value.t > 0
  }

  /**
   What the worker's last event says about where it is: before the flag it has just failed to pop, having loaded as tail
   the number of pops so far; it has exited exactly if it read the flag there as set; work or the flag seen while waiting
   send it back to popping; it compares and sleeps only after it read the clock before its deadline; and a deadline that
   has passed leaves one more evaluation.
   */
  predicate Obeys(pc: WPc, popped: nat, last: Option<Event>) {
    && (pc.FlagBeforePark? <==> last == Some(Pop(Q.PopLoadTail(popped))))
    && (pc.Exited? <==> SawFlag(last))
    && (SawWork(last, popped) || SawFlagInWait(last) ==> pc.Draining?)
    && (pc.Comparing? <==> last == Some(ReadClock(false)))
    && (pc.Asleep? ==> last == Some(Compare))
    && (last == Some(ReadClock(true)) ==> pc == SizeHead(true))
  }

  lemma LoadTellsIndex(g: Cfg, s: State, e: Event)
    requires Inv(g, s) && CanStep(g, s, e)
    ensures e.LoadFlag? || e.LoadFlagInWait? ==> Loaded(s.q, FLAG, e.t) == e.t
    ensures e.LoadTail? ==> Loaded(s.q, Q.Tail, e.t) == e.t
  {
    Q.LastOf(g.queue, s.q, FLAG);
    Q.LastOf(g.queue, s.q, Q.Tail);
  }

  lemma StepKeepsOrder(g: Cfg, s: State, e: Event, last: Option<Event>)
    requires Inv(g, s) && CanStep(g, s, e) && Obeys(s.w.pc, |s.q.popped|, last)
    ensures Obeys(Step(g, s, e).w.pc, |Step(g, s, e).q.popped|, if ByWorker(e) then Some(e) else last)
  {
    LoadTellsIndex(g, s, e);
    if e.Pop? && e.step.PopLoadTail? { Q.TailShowsItself(g.queue, s.q, e.step.t); }
  }

  lemma {:induction false} RunKeepsOrder(g: Cfg, s: State, es: seq<Event>, t: State, last: Option<Event>)
    requires Inv(g, s) && Run(g, s, es, t) && Obeys(s.w.pc, |s.q.popped|, last)
    ensures Obeys(t.w.pc, |t.q.popped|, LastOfWorker(es, last))
    decreases |es|
  {
    if |es| > 0 {
      StepKeepsOrder(g, s, es[0], last);
      StepKeeps(g, s, es[0]);
      RunKeepsOrder(g, Step(g, s, es[0]), es[1..], t, if ByWorker(es[0]) then Some(es[0]) else last);
    }
  }

  lemma WorkerKeepsItsOrder(g: Cfg, es: seq<Event>, s: State)
    requires g.Valid() && Run(g, Init(g), es, s)
    ensures Obeys(s.w.pc, |s.q.popped|, LastOfWorker(es, None))
  {
    InitInv(g);
    RunKeepsOrder(g, Init(g), es, s, None);
  }

  /**
   Whenever the worker is about to read the flag outside its wait, its last step was a pop that failed, and every command
   that its view of the tail shows has been popped. So what it leaves behind when it exits, it had not seen by then.
   */
  lemma WorkerDrainsBeforeTheFlag(g: Cfg, es: seq<Event>, s: State)
    requires g.Valid() && Run(g, Init(g), es, s) && s.w.pc.FlagBeforePark?
    ensures s.q.c.cur(Q.Tail) == |s.q.popped|
    ensures LastOfWorker(es, None) == Some(Pop(Q.PopLoadTail(|s.q.popped|)))
  {
    InitInv(g);
    RunKeeps(g, Init(g), es, s);
    WorkerKeepsItsOrder(g, es, s);
  }

  // ---- commands can be left behind ----

  lemma {:induction false} RunThen(g: Cfg, s: State, es: seq<Event>, t: State, e: Event)
    requires Run(g, s, es, t) && CanStep(g, t, e)
    ensures Run(g, s, es + [e], Step(g, t, e))
    decreases |es|
  {
    if |es| == 0 {
      assert (es + [e])[1..] == [];
    } else {
      assert (es + [e])[1..] == es[1..] + [e];
      RunThen(g, Step(g, s, es[0]), es[1..], t, e);
    }
  }

  /** A run of states that satisfy the invariant. */
  ghost predicate Reaches(g: Cfg, es: seq<Event>, s: State) {
    Run(g, Init(g), es, s) && Inv(g, s)
  }

  lemma Then(g: Cfg, es: seq<Event>, s: State, e: Event) returns (fs: seq<Event>, t: State)
    requires Reaches(g, es, s) && CanStep(g, s, e)
    ensures Reaches(g, fs, t) && t == Step(g, s, e)
  {
    fs, t := es + [e], Step(g, s, e);
    RunThen(g, Init(g), es, s, e);
    StepKeeps(g, s, e);
  }

  function Min(a: nat, b: nat): nat {
    if a < b then a else b
  }

  /** The worker has found the queue empty and is about to load the flag; the producer is between two attempts. */
  ghost predicate FoundEmpty(g: Cfg, s: State, n: nat) {
    && s.w.pc.FlagBeforePark? && s.q.popped == [] && s.q.c.cur(FLAG) == 0
    && s.p.pc.Pushing? && s.q.ppc.PIdle? && s.p.i == n
    && |s.q.pushed| == Min(n, g.queue.cap)
  }

  lemma StartPop(g: Cfg) returns (es: seq<Event>, s: State)
    requires g.Valid()
    ensures Reaches(g, es, s) && s.p == Init(g).p && s.q.ppc.PIdle? && s.q.pushed == s.q.popped == []
    ensures s.w.pc.Draining? && s.q.cpc == Q.CHead(0) && s.q.c.cur(FLAG) == s.q.c.cur(Q.Tail) == 0
    ensures s.q.mem == Init(g).q.mem
  {
    InitInv(g);
    es, s := Then(g, [], Init(g), Pop(Q.PopLoadHead(0)));
  }

  lemma StartEmpty(g: Cfg) returns (es: seq<Event>, s: State)
    requires g.Valid()
    ensures Reaches(g, es, s) && FoundEmpty(g, s, 0)
  {
    es, s := StartPop(g);
    var t := s;
    es, s := Then(g, es, t, Pop(Q.PopLoadTail(0)));
    EmptyPop(g, t);
  }

  lemma EmptyPop(g: Cfg, s: State)
    requires CanStep(g, s, Pop(Q.PopLoadTail(0))) && s.p == Init(g).p && s.q.ppc.PIdle? && s.q.pushed == s.q.popped == []
    requires s.w.pc.Draining? && s.q.cpc == Q.CHead(0) && s.q.c.cur(FLAG) == 0 && s.q.mem == Init(g).q.mem
    ensures FoundEmpty(g, Step(g, s, Pop(Q.PopLoadTail(0))), 0)
  {
  }

  /** What one producer step of this run leaves alone. */
  ghost predicate Beside(s: State, t: State) {
    t.w == s.w && t.q.c == s.q.c && t.q.popped == s.q.popped
  }

  lemma LoadOwnTail(g: Cfg, es: seq<Event>, s: State, n: nat) returns (fs: seq<Event>, t: State)
    requires Reaches(g, es, s) && FoundEmpty(g, s, n) && n < g.limit
    ensures Reaches(g, fs, t) && Beside(s, t) && t.p == s.p && t.q.pushed == s.q.pushed && t.q.mem == s.q.mem
    ensures t.q.ppc.PTail? && t.q.ppc.tail == |s.q.pushed|
  {
    assert s.q.p.cur(Q.Tail) < |s.q.mem(Q.Tail)|;
    fs, t := Then(g, es, s, Push(Q.PushLoadTail(n, s.q.p.cur(Q.Tail))));
  }

  lemma LoadFirstHead(g: Cfg, es: seq<Event>, s: State, n: nat) returns (fs: seq<Event>, t: State)
    requires Reaches(g, es, s) && s.q.ppc.PTail? && s.p.pc.Pushing? && s.p.i == n < g.limit && s.q.popped == []
    ensures Reaches(g, fs, t) && Beside(s, t) && t.q.pushed == s.q.pushed
    ensures if |s.q.pushed| >= g.queue.cap then t.q.ppc.PIdle? && t.p == s.p.(i := n + 1, rejected := t.p.rejected)
            else t.q.ppc.PRoom? && t.p == s.p
  {
    Q.LastOf(g.queue, s.q, Q.Head);
    assert s.q.p.cur(Q.Head) < |s.q.mem(Q.Head)| == 1;
    fs, t := Then(g, es, s, Push(Q.PushLoadHead(0)));
  }

  /** The first two loads of an attempt. */
  lemma TryToSend(g: Cfg, es: seq<Event>, s: State, n: nat) returns (fs: seq<Event>, t: State)
    requires Reaches(g, es, s) && FoundEmpty(g, s, n) && n < g.limit
    ensures Reaches(g, fs, t)
    ensures n >= g.queue.cap ==> FoundEmpty(g, t, n + 1)
    ensures n < g.queue.cap ==> t.q.ppc.PRoom? && t.p == s.p && Beside(s, t) && t.q.pushed == s.q.pushed
  {
    fs, t := LoadOwnTail(g, es, s, n);
    fs, t := LoadFirstHead(g, fs, t, n);
  }

  lemma WriteAndPublish(g: Cfg, es: seq<Event>, s: State, n: nat) returns (fs: seq<Event>, t: State)
    requires Reaches(g, es, s) && s.q.ppc.PRoom? && s.p.pc.Pushing? && s.p.i == n < g.limit
    ensures Reaches(g, fs, t) && Beside(s, t) && t.p.pc.Pushed? && t.p.i == n && t.q.ppc.PIdle?
    ensures |t.q.pushed| == |s.q.pushed| + 1
  {
    PushStepFrame(g.queue, s.q, Q.WriteCell);
    fs, t := Then(g, es, s, Push(Q.WriteCell));
    PushStepFrame(g.queue, t.q, Q.StoreTail);
    fs, t := Then(g, fs, t, Push(Q.StoreTail));
  }

  lemma BumpAndWake(g: Cfg, es: seq<Event>, s: State, n: nat) returns (fs: seq<Event>, t: State)
    requires Reaches(g, es, s) && s.p.pc.Pushed? && s.p.i == n && s.q.ppc.PIdle? && s.w.pc.FlagBeforePark?
    ensures Reaches(g, fs, t) && Beside(s, t) && t.p.pc.Pushing? && t.p.i == n + 1 && t.q.ppc.PIdle?
    ensures t.q.pushed == s.q.pushed
  {
    AnnounceFrame(g.queue, s.q, 0);
    fs, t := Then(g, es, s, Bump);
    fs, t := Then(g, fs, t, Wake);
  }

  lemma SendAccepted(g: Cfg, es: seq<Event>, s: State, n: nat) returns (fs: seq<Event>, t: State)
    requires Reaches(g, es, s) && s.q.ppc.PRoom? && s.p.pc.Pushing? && s.p.i == n < g.queue.cap && n < g.limit
    requires s.w.pc.FlagBeforePark? && s.q.popped == [] && s.q.c.cur(FLAG) == 0 && |s.q.pushed| == n
    ensures Reaches(g, fs, t) && FoundEmpty(g, t, n + 1)
  {
    fs, t := WriteAndPublish(g, es, s, n);
    fs, t := BumpAndWake(g, fs, t, n);
  }

  lemma {:induction false} Send(g: Cfg, es: seq<Event>, s: State, n: nat) returns (fs: seq<Event>, t: State)
    requires Reaches(g, es, s) && FoundEmpty(g, s, n) && n <= g.limit
    ensures Reaches(g, fs, t) && FoundEmpty(g, t, g.limit)
    decreases g.limit - n
  {
    if n == g.limit {
      fs, t := es, s;
    } else {
      fs, t := TryToSend(g, es, s, n);
      if n < g.queue.cap { fs, t := SendAccepted(g, fs, t, n); }
      fs, t := Send(g, fs, t, n + 1);
    }
  }

  /**
   Commands can stay queued for ever: the worker may find the queue empty, and then the flag that was set after every
   command had been sent. Whatever the capacity and the number of commands, all accepted ones can be left behind.
   */
  lemma WorkerCanExitEarly(g: Cfg) returns (es: seq<Event>, s: State)
    requires g.Valid()
    ensures Run(g, Init(g), es, s)
    ensures s.w.pc.Exited? && s.q.popped == [] && |s.q.pushed| == Min(g.limit, g.queue.cap)
  {
    es, s := StartEmpty(g);
    es, s := Send(g, es, s, 0);
    var sent := s;
    AnnounceFrame(g.queue, s.q, 1);
    es, s := Then(g, es, s, SetShutdown);
    assert |s.q.mem(FLAG)| == 2;
    es, s := SeesFlag(g, es, s);
    assert s.q.pushed == sent.q.pushed;
  }

  lemma SeesFlag(g: Cfg, es: seq<Event>, s: State) returns (fs: seq<Event>, t: State)
    requires Reaches(g, es, s) && s.w.pc.FlagBeforePark? && s.q.c.cur(FLAG) == 0 && |s.q.mem(FLAG)| == 2
    ensures Reaches(g, fs, t) && t.w.pc.Exited? && t.q.popped == s.q.popped && t.q.pushed == s.q.pushed
  {
    ListenShows(g.queue, s.q, 1, 1);
    LoadFrame(g.queue, s.q, Q.Listen(1, 1));
    fs, t := Then(g, es, s, LoadFlag(1));
  }
}
