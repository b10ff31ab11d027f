/**
 CondvarEventCount (include/xmbase/concurrency/event_count.hpp): any number of WaitFor calls against any number of
 NotifyAll calls that made their predicate true outside the mutex.

 The predicate stays true once made. It is evaluated under the mutex, and may be read as false unless a
 notifier that made it true has left its critical section: leaving it happens before the evaluation then.
 `guarded` says whether NotifyAll takes the mutex at all, as it does in the source; the unguarded protocol
 is there to show what the empty critical section is for.
 */
module CondvarEventCount {

  datatype Option<T> = None | Some(value: T)

  datatype WaiterPc =
    | Entering
    | Checking
    | Sleepy
    | Asleep
    | Woken
    | LastCheck
    | Returned(result: bool)

  datatype Notifier =
    | Before
    | Ready(sets: bool)
    | Locked(sets: bool)
    | Unlocked(sets: bool)
    | Done(sets: bool)

  datatype Owner = Nobody | Waiting(w: nat) | Notifying(n: nat)

  /** limits: when each WaitFor call times out. */
  datatype Cfg = Cfg(guarded: bool, limits: nat -> int)

  datatype State = State(owner: Owner, now: int, waiters: nat -> WaiterPc, notifiers: nat -> Notifier)

  datatype Event =
    | Enter(w: nat)
    | Check(w: nat, b: bool)
    | Sleep(w: nat)
    | WakeEarly(w: nat)
    | Relock(w: nat, timedOut: bool)
    | CheckAgain(w: nat, b: bool)
    | Make(n: nat, sets: bool)
    | Lock(n: nat)
    | Unlock(n: nat)
    | Skip(n: nat)
    | NotifyAll(n: nat)
    | Tick

  function Init(): State {
    State(Nobody, 0, w => Entering, n => Before)
  }

  predicate HasMade(x: Notifier) {
    !x.Before? && x.sets
  }

  predicate PassedMutex(x: Notifier) {
    (x.Unlocked? || x.Done?) && x.sets
  }

  ghost predicate Made(s: State) {
    exists n :: HasMade(s.notifiers(n))
  }

  ghost predicate MayRead(s: State, b: bool) {
    if b then Made(s) else forall n :: !PassedMutex(s.notifiers(n))
  }

  ghost predicate CanStep(c: Cfg, s: State, e: Event) {
    match e
    case Enter(w) => s.waiters(w).Entering? && s.owner.Nobody?
    case Check(w, b) => s.waiters(w).Checking? && MayRead(s, b)
    case Sleep(w) => s.waiters(w).Sleepy?
    case WakeEarly(w) => s.waiters(w).Asleep?
    case Relock(w, timedOut) => s.waiters(w).Woken? && s.owner.Nobody? && (timedOut ==> s.now >= c.limits(w))
    case CheckAgain(w, b) => s.waiters(w).LastCheck? && MayRead(s, b)
    case Make(n, sets) => s.notifiers(n).Before?
    case Lock(n) => s.notifiers(n).Ready? && s.owner.Nobody? && c.guarded
    case Unlock(n) => s.notifiers(n).Locked?
    case Skip(n) => s.notifiers(n).Ready? && !c.guarded
    case NotifyAll(n) => s.notifiers(n).Unlocked?
    case Tick => true
  }

  function At(s: State, w: nat, pc: WaiterPc, owner: Owner): State {
    s.(owner := owner, waiters := (i: nat) => if i == w then pc else s.waiters(i))
  }

  function Notified(s: State, n: nat, x: Notifier, owner: Owner): State {
    s.(owner := owner, notifiers := (i: nat) => if i == n then x else s.notifiers(i))
  }

  function Awake(pc: WaiterPc): WaiterPc {
    if pc.Asleep? then Woken else pc
  }

  /** Waiting releases the mutex and falls asleep in one step; returning releases it too. */
  ghost function Step(c: Cfg, s: State, e: Event): State
    requires CanStep(c, s, e)
  {
    match e
    case Enter(w) => At(s, w, Checking, Waiting(w))
    case Check(w, b) => if b then At(s, w, Returned(true), Nobody) else At(s, w, Sleepy, s.owner)
    case Sleep(w) => At(s, w, Asleep, Nobody)
    case WakeEarly(w) => At(s, w, Woken, s.owner)
    case Relock(w, timedOut) => At(s, w, if timedOut then LastCheck else Checking, Waiting(w))
    case CheckAgain(w, b) => At(s, w, Returned(b), Nobody)
    case Make(n, sets) => Notified(s, n, Ready(sets), s.owner)
    case Lock(n) => Notified(s, n, Locked(s.notifiers(n).sets), Notifying(n))
    case Unlock(n) => Notified(s, n, Unlocked(s.notifiers(n).sets), Nobody)
    case Skip(n) => Notified(s, n, Unlocked(s.notifiers(n).sets), s.owner)
    case NotifyAll(n) =>
      Notified(s, n, Done(s.notifiers(n).sets), s.owner).(waiters := (i: nat) => Awake(s.waiters(i)))
    case Tick => s.(now := s.now + 1)
  }

  ghost predicate Run(c: Cfg, s: State, es: seq<Event>, t: State)
    decreases |es|
  {
    if |es| == 0 then s == t else
      CanStep(c, s, es[0]) && Run(c, Step(c, s, es[0]), es[1..], t)
  }

  predicate HoldsMutex(pc: WaiterPc) {
    pc.Checking? || pc.Sleepy? || pc.LastCheck?
  }

  predicate WaiterInv(c: Cfg, s: State, w: nat, pc: WaiterPc) {
    && (HoldsMutex(pc) <==> s.owner == Waiting(w))
    && (pc.LastCheck? || pc == Returned(false) ==> s.now >= c.limits(w))
  }

  predicate NotifierInv(s: State, n: nat, x: Notifier) {
    x.Locked? <==> s.owner == Notifying(n)
  }

  predicate Unseen(pc: WaiterPc, x: Notifier) {
    && (pc.Sleepy? ==> !PassedMutex(x))
    && (pc.Asleep? && x.Done? ==> !x.sets)
  }

  ghost predicate Inv(c: Cfg, s: State) {
    && (forall w :: WaiterInv(c, s, w, s.waiters(w)))
    && (forall n :: NotifierInv(s, n, s.notifiers(n)))
    && (forall w, n :: Unseen(s.waiters(w), s.notifiers(n)))
  }

  lemma StepKeeps(c: Cfg, s: State, e: Event)
    requires c.guarded && Inv(c, s) && CanStep(c, s, e)
    ensures Inv(c, Step(c, s, e))
  {
    var t := Step(c, s, e);
    forall w ensures WaiterInv(c, t, w, t.waiters(w)) {
      assert WaiterInv(c, s, w, s.waiters(w));
    }
    forall n ensures NotifierInv(t, n, t.notifiers(n)) {
      assert NotifierInv(s, n, s.notifiers(n));
    }
    forall w, n ensures Unseen(t.waiters(w), t.notifiers(n)) {
      assert Unseen(s.waiters(w), s.notifiers(n));
      assert WaiterInv(c, s, w, s.waiters(w)) && NotifierInv(s, n, s.notifiers(n));
    }
  }

  lemma {:induction false} RunKeeps(c: Cfg, s: State, es: seq<Event>, t: State)
    requires c.guarded && Inv(c, s) && Run(c, s, es, t)
    ensures Inv(c, t)
    decreases |es|
  {
    if |es| > 0 {
      StepKeeps(c, s, es[0]);
      RunKeeps(c, Step(c, s, es[0]), es[1..], t);
    }
  }

  /** While a waiter sleeps, every notifier that made the predicate true has still to reach notify_all. */
  lemma SleeperIsOwedANotify(c: Cfg, es: seq<Event>, s: State, w: nat, n: nat)
    requires c.guarded && Run(c, Init(), es, s)
    requires s.waiters(w).Asleep? && HasMade(s.notifiers(n))
    ensures !s.notifiers(n).Done?
  {
    RunKeeps(c, Init(), es, s);
    assert Unseen(s.waiters(w), s.notifiers(n));
  }

  /** Between a waiter's failed check and its sleep, no notifier gets past the critical section. */
  lemma CheckAndSleepAreOne(c: Cfg, es: seq<Event>, s: State, w: nat, n: nat)
    requires c.guarded && Run(c, Init(), es, s) && s.waiters(w).Sleepy?
    ensures !PassedMutex(s.notifiers(n)) && !CanStep(c, s, Lock(n)) && !CanStep(c, s, Unlock(n))
  {
    RunKeeps(c, Init(), es, s);
    assert Unseen(s.waiters(w), s.notifiers(n));
    assert WaiterInv(c, s, w, s.waiters(w)) && NotifierInv(s, n, s.notifiers(n));
  }

  lemma FalseOnlyAfterLimit(c: Cfg, es: seq<Event>, s: State, w: nat)
    requires c.guarded && Run(c, Init(), es, s) && s.waiters(w) == Returned(false)
    ensures s.now >= c.limits(w)
  {
    RunKeeps(c, Init(), es, s);
    assert WaiterInv(c, s, w, s.waiters(w));
  }

  /** Whether w's last wait of es ended at its limit; `before` if it ended none. */
  function TimedOut(es: seq<Event>, w: nat, before: bool): bool {
    if |es| == 0 then before
    else
      match es[0]
      case Relock(v, timedOut) => TimedOut(es[1..], w, if v == w then timedOut else before)
      case _ => TimedOut(es[1..], w, before)
  }

  predicate DecidedBy(pc: WaiterPc, timedOut: bool) {
    && (timedOut ==> pc.LastCheck? || pc.Returned?)
    && (pc.LastCheck? || pc == Returned(false) ==> timedOut)
  }

  lemma {:induction false} RunKeepsDecided(c: Cfg, s: State, es: seq<Event>, t: State, w: nat, timedOut: bool)
    requires Run(c, s, es, t) && DecidedBy(s.waiters(w), timedOut)
    ensures DecidedBy(t.waiters(w), TimedOut(es, w, timedOut))
    decreases |es|
  {
    if |es| > 0 {
      var now := match es[0] case Relock(v, b) => (if v == w then b else timedOut) case _ => timedOut;
      RunKeepsDecided(c, Step(c, s, es[0]), es[1..], t, w, now);
    }
  }

  /** A waiter whose wait timed out checks once more and returns; it never sleeps again. Only such a one returns false. */
  lemma TimeoutIsFinal(c: Cfg, es: seq<Event>, s: State, w: nat)
    requires Run(c, Init(), es, s)
    ensures TimedOut(es, w, false) ==> s.waiters(w).LastCheck? || s.waiters(w).Returned?
    ensures s.waiters(w) == Returned(false) ==> TimedOut(es, w, false)
  {
    RunKeepsDecided(c, Init(), es, s, w, false);
  }

  /** What w's last evaluation of the predicate yielded, after one more event. */
  function Verdict(e: Event, w: nat, before: Option<bool>): Option<bool> {
    match e
    case Check(v, b) => if v == w then Some(b) else before
    case CheckAgain(v, b) => if v == w then Some(b) else before
    case _ => before
  }

  function LastVerdict(es: seq<Event>, w: nat, before: Option<bool>): Option<bool> {
    if |es| == 0 then before else LastVerdict(es[1..], w, Verdict(es[0], w, before))
  }

  predicate JudgedBy(pc: WaiterPc, verdict: Option<bool>) {
    && (pc.Returned? ==> verdict == Some(pc.result))
    && (verdict == Some(true) ==> pc == Returned(true))
  }

  lemma {:induction false} RunKeepsJudged(c: Cfg, s: State, es: seq<Event>, t: State, w: nat, verdict: Option<bool>)
    requires Run(c, s, es, t) && JudgedBy(s.waiters(w), verdict)
    ensures JudgedBy(t.waiters(w), LastVerdict(es, w, verdict))
    decreases |es|
  {
    if |es| > 0 {
      RunKeepsJudged(c, Step(c, s, es[0]), es[1..], t, w, Verdict(es[0], w, verdict));
    }
  }

  /** WaitFor returns what its last evaluation of the predicate yielded, and it returns as soon as one yields true. */
  lemma ReturnsTheLastVerdict(c: Cfg, es: seq<Event>, s: State, w: nat)
    requires Run(c, Init(), es, s)
    ensures s.waiters(w).Returned? ==> LastVerdict(es, w, None) == Some(s.waiters(w).result)
    ensures LastVerdict(es, w, None) == Some(true) ==> s.waiters(w) == Returned(true)
  {
    RunKeepsJudged(c, Init(), es, s, w, None);
  }

  /** A run with one more event in front. */
  lemma RunFirst(c: Cfg, s: State, e: Event, es: seq<Event>, t: State) returns (fs: seq<Event>)
    requires CanStep(c, s, e) && Run(c, Step(c, s, e), es, t)
    ensures Run(c, s, fs, t)
  {
    fs := [e] + es;
    assert fs[1..] == es;
  }

  /** Without the critical section a wakeup is lost: the notifier finishes inside the window. */
  lemma UnguardedForgets(c: Cfg) returns (es: seq<Event>, s: State)
    requires !c.guarded
    ensures Run(c, Init(), es, s)
    ensures s.waiters(0).Asleep? && s.notifiers(0) == Done(true)
  {
    var s1 := Step(c, Init(), Enter(0));
    var s2 := Step(c, s1, Check(0, false));
    assert s2.waiters(0).Sleepy? && s2.notifiers(0).Before?;
    var s3 := Step(c, s2, Make(0, true));
    var s4 := Step(c, s3, Skip(0));
    var s5 := Step(c, s4, NotifyAll(0));
    assert s5.waiters(0) == Awake(s4.waiters(0)) == Sleepy && s5.notifiers(0) == Done(true);
    s := Step(c, s5, Sleep(0));
    es := RunFirst(c, s5, Sleep(0), [], s);
    es := RunFirst(c, s4, NotifyAll(0), es, s);
    es := RunFirst(c, s3, Skip(0), es, s);
    es := RunFirst(c, s2, Make(0, true), es, s);
    es := RunFirst(c, s1, Check(0, false), es, s);
    es := RunFirst(c, Init(), Enter(0), es, s);
  }
}
