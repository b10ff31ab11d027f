/**
 EventCount (include/xmbase/concurrency/event_count.hpp): any number of WaitUntil calls against any number of
 NotifyAll calls, one step per atomic operation, clock reading, futex operation or evaluation of the predicate.

 The predicate stays true once some notifier has made it true, but a waiter may still read it as false until
 it has synchronized with that notifier. The epoch is modified by read-modify-writes only, so its messages are
 numbered by the bumps so far, and an acquire load of message k synchronizes with the notifiers of the bumps
 1 to k: each later bump continues the release sequence of the earlier ones. A load may be stale. The futex
 compares 32-bit words, and compare-and-sleep is atomic against bumps.
 */
module EventCount {

  const WORD: nat := 0x1_0000_0000

  datatype Option<T> = None | Some(value: T)

  datatype WaiterPc =
    | Entering
    | Checking
    | Timing
    | LastCheck
    | Comparing
    | Asleep(at: nat)
    | Returned(result: bool)

  /** seen: the message of the epoch that the last load returned. */
  datatype Waiter = Waiter(pc: WaiterPc, seen: nat)

  /** sets: this caller made the predicate true before it called NotifyAll. */
  datatype Notifier =
    | Before
    | Ready(sets: bool)
    | Bumped(sets: bool, bump: nat)
    | Done(sets: bool, bump: nat)

  /** deadline_at of each WaitUntil call. */
  type Deadlines = nat -> int

  datatype State = State(epoch: nat, now: int, waiters: nat -> Waiter, notifiers: nat -> Notifier)

  datatype Event =
    | LoadEpoch(w: nat, k: nat)
    | Check(w: nat, b: bool)
    | ReadClock(w: nat)
    | CheckAgain(w: nat, b: bool)
    | Compare(w: nat)
    | WakeEarly(w: nat)
    | Make(n: nat, sets: bool)
    | Bump(n: nat)
    | Wake(n: nat)
    | Tick

  function Init(): State {
    State(0, 0, w => Waiter(Entering, 0), n => Before)
  }

  predicate HasMade(x: Notifier) {
    !x.Before? && x.sets
  }

  /** x made the predicate true and its bump is one of the first k. */
  predicate BumpedBy(x: Notifier, k: nat) {
    (x.Bumped? || x.Done?) && x.sets && x.bump <= k
  }

  ghost predicate Made(s: State) {
    exists n :: HasMade(s.notifiers(n))
  }

  /** The predicate, evaluated by a thread that has seen message k of the epoch, may yield b. */
  ghost predicate MayRead(s: State, k: nat, b: bool) {
    if b then Made(s) else forall n :: !BumpedBy(s.notifiers(n), k)
  }

  ghost predicate CanStep(s: State, e: Event) {
    match e
    case LoadEpoch(w, k) => s.waiters(w).pc.Entering? && s.waiters(w).seen <= k <= s.epoch
    case Check(w, b) => s.waiters(w).pc.Checking? && MayRead(s, s.waiters(w).seen, b)
    case ReadClock(w) => s.waiters(w).pc.Timing?
    case CheckAgain(w, b) => s.waiters(w).pc.LastCheck? && MayRead(s, s.waiters(w).seen, b)
    case Compare(w) => s.waiters(w).pc.Comparing?
    case WakeEarly(w) => s.waiters(w).pc.Asleep?
    case Make(n, sets) => s.notifiers(n).Before?
    case Bump(n) => s.notifiers(n).Ready?
    case Wake(n) => s.notifiers(n).Bumped?
    case Tick => true
  }

  function At(s: State, w: nat, pc: WaiterPc): State {
    s.(waiters := (i: nat) => if i == w then s.waiters(i).(pc := pc) else s.waiters(i))
  }

  function Awake(x: Waiter): Waiter {
    if x.pc.Asleep? then x.(pc := Entering) else x
  }

  function Notified(s: State, n: nat, x: Notifier): State {
    s.(notifiers := (i: nat) => if i == n then x else s.notifiers(i))
  }

  /** The futex word: the number of bumps, modulo 2^32. */
  function FutexWord(k: nat): nat {
    k % WORD
  }

  ghost function Step(d: Deadlines, s: State, e: Event): State
    requires CanStep(s, e)
  {
    match e
    case LoadEpoch(w, k) => s.(waiters := (i: nat) => if i == w then Waiter(Checking, k) else s.waiters(i))
    case Check(w, b) => At(s, w, if b then Returned(true) else Timing)
    case ReadClock(w) => At(s, w, if d(w) - s.now <= 0 then LastCheck else Comparing)
    case CheckAgain(w, b) => At(s, w, Returned(b))
    case Compare(w) =>
      At(s, w, if FutexWord(s.epoch) == FutexWord(s.waiters(w).seen) then Asleep(s.epoch) else Entering)
    case WakeEarly(w) => At(s, w, Entering)
    case Make(n, sets) => Notified(s, n, Ready(sets))
    case Bump(n) => Notified(s, n, Bumped(s.notifiers(n).sets, s.epoch + 1)).(epoch := s.epoch + 1)
    case Wake(n) =>
      Notified(s, n, Done(s.notifiers(n).sets, s.notifiers(n).bump)).(waiters := (i: nat) => Awake(s.waiters(i)))
    case Tick => s.(now := s.now + 1)
  }

  /** t is reached from s by the events es. */
  ghost predicate Run(d: Deadlines, s: State, es: seq<Event>, t: State)
    decreases |es|
  {
    if |es| == 0 then s == t else
      CanStep(s, es[0]) && Run(d, Step(d, s, es[0]), es[1..], t)
  }

  // ---- the invariant ----

  ghost predicate NotifierInv(s: State, x: Notifier) {
    x.Bumped? || x.Done? ==> 1 <= x.bump <= s.epoch
  }

  /** A waiter that found the predicate false has seen no bump of a notifier that made it true. */
  predicate FoundFalse(pc: WaiterPc) {
    pc.Timing? || pc.Comparing? || pc.Asleep? || pc == Returned(false)
  }

  ghost predicate WaiterInv(d: Deadlines, s: State, w: nat, x: Waiter) {
    && x.seen <= s.epoch
    && (x.pc.LastCheck? || x.pc == Returned(false) ==> s.now >= d(w))
    && (x.pc == Returned(true) ==> Made(s))
    && (x.pc.Asleep? ==> x.seen <= x.pc.at <= s.epoch && FutexWord(x.pc.at) == FutexWord(x.seen))
  }

  ghost predicate Unseen(x: Waiter, y: Notifier) {
    && (FoundFalse(x.pc) ==> !BumpedBy(y, x.seen))
    && (x.pc.Asleep? && y.Done? ==> y.bump <= x.pc.at)
  }

  ghost predicate Inv(d: Deadlines, s: State) {
    && (forall n :: NotifierInv(s, s.notifiers(n)))
    && (forall w :: WaiterInv(d, s, w, s.waiters(w)))
    && (forall w, n :: Unseen(s.waiters(w), s.notifiers(n)))
  }

  lemma MadeStays(s: State, t: State, n: nat)
    requires forall i | i != n :: t.notifiers(i) == s.notifiers(i)
    requires HasMade(s.notifiers(n)) ==> HasMade(t.notifiers(n))
    ensures Made(s) ==> Made(t)
  {
    if Made(s) {
      var i :| HasMade(s.notifiers(i));
      assert HasMade(t.notifiers(i));
    }
  }

  lemma WaiterStepKeeps(d: Deadlines, s: State, e: Event)
    requires Inv(d, s) && CanStep(s, e) && !(e.Make? || e.Bump? || e.Wake?)
    ensures Inv(d, Step(d, s, e))
  {
    var t := Step(d, s, e);
    assert t.notifiers == s.notifiers && t.epoch == s.epoch;
    assert Made(s) == Made(t);
    forall n ensures NotifierInv(t, t.notifiers(n)) {
      assert NotifierInv(s, s.notifiers(n));
    }
    forall w ensures WaiterInv(d, t, w, t.waiters(w)) {
      assert WaiterInv(d, s, w, s.waiters(w));
    }
    forall w, n ensures Unseen(t.waiters(w), t.notifiers(n)) {
      assert Unseen(s.waiters(w), s.notifiers(n)) && NotifierInv(s, s.notifiers(n));
    }
  }

  lemma NotifierStepKeeps(d: Deadlines, s: State, e: Event)
    requires Inv(d, s) && CanStep(s, e) && (e.Make? || e.Bump? || e.Wake?)
    ensures Inv(d, Step(d, s, e))
  {
    var t := Step(d, s, e);
    MadeStays(s, t, e.n);
    forall n ensures NotifierInv(t, t.notifiers(n)) {
      assert NotifierInv(s, s.notifiers(n));
    }
    forall w ensures WaiterInv(d, t, w, t.waiters(w)) {
      assert WaiterInv(d, s, w, s.waiters(w));
    }
    forall w, n ensures Unseen(t.waiters(w), t.notifiers(n)) {
      assert Unseen(s.waiters(w), s.notifiers(n)) && WaiterInv(d, s, w, s.waiters(w));
    }
  }

  lemma {:induction false} RunKeeps(d: Deadlines, s: State, es: seq<Event>, t: State)
    requires Inv(d, s) && Run(d, s, es, t)
    ensures Inv(d, t)
    decreases |es|
  {
    if |es| > 0 {
      if es[0].Make? || es[0].Bump? || es[0].Wake? {
        NotifierStepKeeps(d, s, es[0]);
      } else {
        WaiterStepKeeps(d, s, es[0]);
      }
      RunKeeps(d, Step(d, s, es[0]), es[1..], t);
    }
  }

  // ---- what every run satisfies ----

  /**
   No lost wakeup: as long as fewer than 2^32 bumps fall between the message a waiter loaded and its
   futex comparison, no notifier that made the predicate true has finished while the waiter is asleep:
   each has still to bump the epoch or still to wake.
   */
  lemma SleeperIsOwedAWake(d: Deadlines, es: seq<Event>, s: State, w: nat, n: nat)
    requires Run(d, Init(), es, s)
    requires s.waiters(w).pc.Asleep? && s.waiters(w).pc.at < s.waiters(w).seen + WORD
    requires HasMade(s.notifiers(n))
    ensures s.notifiers(n).Ready? || s.notifiers(n).Bumped?
  {
    RunKeeps(d, Init(), es, s);
    assert Unseen(s.waiters(w), s.notifiers(n)) && WaiterInv(d, s, w, s.waiters(w));
    assert s.waiters(w).pc.at == s.waiters(w).seen;
  }

  /** A sleeper that a finished notifier has left behind compared a word that had gone round. */
  lemma ForgottenMeansLapped(d: Deadlines, es: seq<Event>, s: State, w: nat, n: nat)
    requires Run(d, Init(), es, s)
    requires s.waiters(w).pc.Asleep? && s.notifiers(n).Done? && s.notifiers(n).sets
    ensures s.waiters(w).seen < s.notifiers(n).bump <= s.waiters(w).pc.at
    ensures (s.waiters(w).pc.at - s.waiters(w).seen) % WORD == 0 && s.waiters(w).pc.at >= s.waiters(w).seen + WORD
  {
    RunKeeps(d, Init(), es, s);
    assert Unseen(s.waiters(w), s.notifiers(n)) && WaiterInv(d, s, w, s.waiters(w));
  }

  /** WaitUntil returns false only after its deadline, and without having seen a bump that announced the predicate. */
  lemma FalseOnlyAfterDeadline(d: Deadlines, es: seq<Event>, s: State, w: nat, n: nat)
    requires Run(d, Init(), es, s) && s.waiters(w).pc == Returned(false)
    ensures s.now >= d(w) && !BumpedBy(s.notifiers(n), s.waiters(w).seen)
  {
    RunKeeps(d, Init(), es, s);
    assert Unseen(s.waiters(w), s.notifiers(n)) && WaiterInv(d, s, w, s.waiters(w));
  }

  lemma TrueOnlyIfMade(d: Deadlines, es: seq<Event>, s: State, w: nat)
    requires Run(d, Init(), es, s) && s.waiters(w).pc == Returned(true)
    ensures Made(s)
  {
    RunKeeps(d, Init(), es, s);
    assert WaiterInv(d, s, w, s.waiters(w));
  }

  /** After a bump that announced the predicate, a waiter that loads the newest epoch returns true, deadline or not. */
  lemma NewestEpochDecides(d: Deadlines, es: seq<Event>, s: State, w: nat, n: nat, b: bool)
    requires Run(d, Init(), es, s) && s.waiters(w) == Waiter(Checking, s.epoch)
    requires (s.notifiers(n).Bumped? || s.notifiers(n).Done?) && s.notifiers(n).sets
    ensures CanStep(s, Check(w, b)) <==> b
  {
    RunKeeps(d, Init(), es, s);
    assert NotifierInv(s, s.notifiers(n));
    assert BumpedBy(s.notifiers(n), s.epoch) && HasMade(s.notifiers(n));
  }

  // ---- what the clock reading decides ----

  /** What the clock showed at w's last reading in es, which starts at time now; `before` if it reads none. */
  function LastReading(es: seq<Event>, w: nat, now: int, before: int): int {
    if |es| == 0 then before
    else
      match es[0]
      case Tick => LastReading(es[1..], w, now + 1, before)
      case ReadClock(v) => LastReading(es[1..], w, now, if v == w then now else before)
      case _ => LastReading(es[1..], w, now, before)
  }

  /** The reading decides the rest of the pass: park before the deadline, the last check at or past it. */
  predicate DecidedBy(pc: WaiterPc, deadline: int, reading: int) {
    && (pc.Comparing? || pc.Asleep? ==> reading < deadline)
    && (pc.LastCheck? || pc == Returned(false) ==> reading >= deadline)
  }

  lemma StepKeepsDecided(d: Deadlines, s: State, e: Event, w: nat, reading: int)
    requires CanStep(s, e) && DecidedBy(s.waiters(w).pc, d(w), reading)
    ensures DecidedBy(Step(d, s, e).waiters(w).pc, d(w), if e == ReadClock(w) then s.now else reading)
  {
  }

  lemma {:induction false} RunKeepsDecided(d: Deadlines, s: State, es: seq<Event>, t: State, w: nat, reading: int)
    requires Run(d, s, es, t) && DecidedBy(s.waiters(w).pc, d(w), reading)
    ensures DecidedBy(t.waiters(w).pc, d(w), LastReading(es, w, s.now, reading))
    decreases |es|
  {
    if |es| > 0 {
      StepKeepsDecided(d, s, es[0], w, reading);
      RunKeepsDecided(d, Step(d, s, es[0]), es[1..], t, w, if es[0] == ReadClock(w) then s.now else reading);
    }
  }

  /**
   A waiter whose last clock reading was at or past its deadline neither compares nor sleeps in that pass; one that gives
   up has read a time at or past its deadline.
   */
  lemma ParksOnlyBeforeItsDeadline(d: Deadlines, es: seq<Event>, s: State, w: nat)
    requires Run(d, Init(), es, s)
    ensures s.waiters(w).pc.Comparing? || s.waiters(w).pc.Asleep? ==> LastReading(es, w, 0, 0) < d(w)
    ensures s.waiters(w).pc.LastCheck? || s.waiters(w).pc == Returned(false) ==> LastReading(es, w, 0, 0) >= d(w)
  {
    RunKeepsDecided(d, Init(), es, s, w, 0);
  }

  // ---- what the predicate decides ----

  /** What w's last evaluation of the predicate yielded, after one more event. */
  function Verdict(e: Event, w: nat, before: Option<bool>): Option<bool> {
    match e
    case Check(v, b) => if v == w then Some(b) else before
    case CheckAgain(v, b) => if v == w then Some(b) else before
    case _ => before
  }

  function LastVerdict(es: seq<Event>, w: nat, before: Option<bool>): Option<bool> {
    if |es| == 0 then before else LastVerdict(es[1..], w, Verdict(es[0], w, before))
  }

  predicate JudgedBy(pc: WaiterPc, verdict: Option<bool>) {
    && (pc.Returned? ==> verdict == Some(pc.result))
    && (verdict == Some(true) ==> pc == Returned(true))
  }

  lemma {:induction false} RunKeepsJudged(d: Deadlines, s: State, es: seq<Event>, t: State, w: nat, verdict: Option<bool>)
    requires Run(d, s, es, t) && JudgedBy(s.waiters(w).pc, verdict)
    ensures JudgedBy(t.waiters(w).pc, LastVerdict(es, w, verdict))
    decreases |es|
  {
    if |es| > 0 {
      RunKeepsJudged(d, Step(d, s, es[0]), es[1..], t, w, Verdict(es[0], w, verdict));
    }
  }

  /** WaitUntil returns what its last evaluation of the predicate yielded, and it returns as soon as one yields true. */
  lemma ReturnsTheLastVerdict(d: Deadlines, es: seq<Event>, s: State, w: nat)
    requires Run(d, Init(), es, s)
    ensures s.waiters(w).pc.Returned? ==> LastVerdict(es, w, None) == Some(s.waiters(w).pc.result)
    ensures LastVerdict(es, w, None) == Some(true) ==> s.waiters(w).pc == Returned(true)
  {
    RunKeepsJudged(d, Init(), es, s, w, None);
  }

  // ---- the 32-bit limit is real ----

  lemma {:induction false} RunConcat(d: Deadlines, s: State, es: seq<Event>, t: State, fs: seq<Event>, u: State)
    requires Run(d, s, es, t) && Run(d, t, fs, u)
    ensures Run(d, s, es + fs, u)
    decreases |es|
  {
    if |es| == 0 {
      assert es + fs == fs;
    } else {
      assert (es + fs)[1..] == es[1..] + fs;
      RunConcat(d, Step(d, s, es[0]), es[1..], t, fs, u);
    }
  }

  lemma OneNotification(d: Deadlines, s: State, n: nat) returns (t: State)
    requires s.notifiers(n).Before?
    ensures Run(d, s, [Make(n, true), Bump(n), Wake(n)], t)
    ensures t.epoch == s.epoch + 1 && t.notifiers(n) == Done(true, s.epoch + 1)
    ensures forall i | i != n :: t.notifiers(i) == s.notifiers(i)
    ensures forall w :: t.waiters(w) == Awake(s.waiters(w))
  {
    var s1 := Step(d, s, Make(n, true));
    var s2 := Step(d, s1, Bump(n));
    t := Step(d, s2, Wake(n));
    var es := [Make(n, true), Bump(n), Wake(n)];
    assert es[1..] == [Bump(n), Wake(n)] && es[1..][1..] == [Wake(n)] && es[1..][1..][1..] == [];
    assert Run(d, t, [], t) && Run(d, s2, [Wake(n)], t) && Run(d, s1, es[1..], t);
  }

  /** The callers 0 to m - 1 make the predicate true and notify, one after the other. */
  lemma {:induction false} ManyNotifications(d: Deadlines, s: State, m: nat) returns (es: seq<Event>, t: State)
    requires s.epoch == 0 && forall n :: s.notifiers(n).Before?
    ensures Run(d, s, es, t)
    ensures t.epoch == m
    ensures forall n: nat | n < m :: t.notifiers(n) == Done(true, n + 1)
    ensures forall n: nat | n >= m :: t.notifiers(n).Before?
    ensures forall w | !s.waiters(w).pc.Asleep? :: t.waiters(w) == s.waiters(w)
  {
    if m == 0 {
      es, t := [], s;
    } else {
      var fs, u := ManyNotifications(d, s, m - 1);
      t := OneNotification(d, u, m - 1);
      es := fs + [Make(m - 1, true), Bump(m - 1), Wake(m - 1)];
      RunConcat(d, s, fs, u, [Make(m - 1, true), Bump(m - 1), Wake(m - 1)], t);
    }
  }

  /** With a whole number of laps between load and comparison, a waiter sleeps although every notifier has finished. */
  lemma WholeLapsForget(d: Deadlines, laps: nat, w: nat) returns (es: seq<Event>, s: State)
    requires laps >= 1 && d(w) > 0
    ensures Run(d, Init(), es, s)
    ensures s.waiters(w) == Waiter(Asleep(laps * WORD), 0)
    ensures forall n: nat | n < laps * WORD :: s.notifiers(n).Done? && s.notifiers(n).sets
  {
    var s1 := Step(d, Init(), LoadEpoch(w, 0));
    var s2 := Step(d, s1, Check(w, false));
    var s3 := Step(d, s2, ReadClock(w));
    var prefix := [LoadEpoch(w, 0), Check(w, false), ReadClock(w)];
    assert prefix[1..] == [Check(w, false), ReadClock(w)] && prefix[1..][1..] == [ReadClock(w)];
    assert Run(d, s3, [], s3) && Run(d, s2, [ReadClock(w)], s3) && Run(d, s1, prefix[1..], s3);
    var fs, t := ManyNotifications(d, s3, laps * WORD);
    RunConcat(d, Init(), prefix, s3, fs, t);
    assert FutexWord(laps * WORD) == 0;
    s := Step(d, t, Compare(w));
    assert Run(d, s, [], s) && Run(d, t, [Compare(w)], s);
    es := prefix + fs + [Compare(w)];
    RunConcat(d, Init(), prefix + fs, t, [Compare(w)], s);
  }
}
