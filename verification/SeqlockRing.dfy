/**
 The seqlock overwrite ring in its own imperative form (include/xmbase/concurrency/detail/seqlock_ring.hpp), under
 sequentially consistent interleaving. Between any two atomic accesses of a reader the writer may take any number of
 steps (`Interfere`); every single step of `Store` is proved to be a step that readers must expect (`Rely`).
 */
module SeqlockRing {
  import opened Laps

  datatype Cell = Cell(sq: nat, index: nat, words: seq<nat>)

  /** How far the store on the in-flight cell (cell count % N) has come. */
  datatype Phase = Quiet | Writing | Written(value: seq<nat>)

  /** hist: every value published so far. live: whether a writer may still take steps. */
  datatype State = State(N: nat, W: nat, cells: seq<Cell>, count: nat, hist: seq<seq<nat>>, phase: Phase, live: bool)

  predicate Holds(c: Cell, p: nat, value: seq<nat>) {
    c.sq != 0 && c.sq % 2 == 0 && c.index == p && c.words == value
  }

  ghost predicate Shape(s: State) {
    && s.N >= 1 && |s.cells| == s.N && s.count == |s.hist|
    && (forall n | 0 <= n < s.N :: |s.cells[n].words| == s.W)
    && (forall p | 0 <= p < |s.hist| :: |s.hist[p]| == s.W)
  }

  /** The value published at position p is still in its cell. */
  predicate InPlace(s: State, p: nat) {
    s.N >= 1 && |s.cells| == s.N && p < |s.hist| && Holds(s.cells[p % s.N], p, s.hist[p])
  }

  /** The N - 1 newest published values are in place; the in-flight cell is as its phase says; the rest is unwritten. */
  ghost predicate Ok(s: State) {
    && Shape(s)
    && (forall p: nat | s.count - s.N < p < s.count :: InPlace(s, p))
    && (forall n | s.count < n < s.N :: s.cells[n].sq == 0)
    && var f := s.cells[s.count % s.N];
       match s.phase
       case Quiet => f.sq == 0 || (s.count >= s.N && Holds(f, s.count - s.N, s.hist[s.count - s.N]))
       case Writing => f.sq % 2 == 1
       case Written(value) => Holds(f, s.count, value)
  }

  predicate InCell(N: nat, q: nat, n: nat)
    requires N >= 1
  {
    q % N == n
  }

  /** Some store on cell n was under way while the cursor moved from lo to hi. */
  ghost predicate Touched(N: nat, n: nat, lo: nat, hi: nat)
    requires N >= 1
  {
    exists q :: lo <= q <= hi && InCell(N, q, n)
  }

  ghost predicate CellRely(N: nat, n: nat, a: Cell, b: Cell, lo: nat, hi: nat)
    requires N >= 1
  {
    && a.sq <= b.sq
    && (a.sq == b.sq && a.sq % 2 == 0 ==> a == b)
    && (a.sq != b.sq ==> Touched(N, n, lo, hi))
  }

  /** What any number of writer steps may do between two accesses of a reader. */
  ghost predicate Rely(a: State, b: State) {
    && a.N == b.N && a.W == b.W && a.N >= 1 && |a.cells| == |b.cells| == a.N
    && a.hist <= b.hist
    && (!a.live ==> a == b)
    && forall n | 0 <= n < a.N :: CellRely(a.N, n, a.cells[n], b.cells[n], |a.hist|, |b.hist|)
  }

  lemma RelyTransitive(a: State, b: State, c: State)
    requires Rely(a, b) && Rely(b, c)
    ensures Rely(a, c)
  {
    forall n | 0 <= n < a.N ensures CellRely(a.N, n, a.cells[n], c.cells[n], |a.hist|, |c.hist|) {
      assert CellRely(a.N, n, a.cells[n], b.cells[n], |a.hist|, |b.hist|);
      assert CellRely(b.N, n, b.cells[n], c.cells[n], |b.hist|, |c.hist|);
    }
  }

  /** A published position not yet overwritten, nor about to be, sits unharmed in its cell. */
  lemma NewestStand(s: State, p: nat)
    requires Ok(s) && p < s.count && s.count < p + s.N
    ensures InPlace(s, p)
  {
  }

  /** An even, nonzero cell whose index names a published position holds the value published there. */
  lemma IndexTells(s: State, p: nat)
    requires Ok(s) && p < s.count
    requires var c := s.cells[p % s.N]; c.sq != 0 && c.sq % 2 == 0 && c.index == p
    ensures s.cells[p % s.N].words == s.hist[p]
  {
    var q := NewestInCell(s.N, p, s.count);
    if q < s.count { NewestStand(s, q); }
  }

  // ---- the atomic stores of Store ----

  function StepOdd(s: State): State
    requires s.N >= 1 && |s.cells| == s.N
  {
    var n := s.count % s.N;
    s.(cells := s.cells[n := s.cells[n].(sq := s.cells[n].sq + 1)], phase := Writing)
  }

  function StepData(s: State, index: nat, words: seq<nat>): State
    requires s.N >= 1 && |s.cells| == s.N
  {
    var n := s.count % s.N;
    s.(cells := s.cells[n := s.cells[n].(index := index, words := words)])
  }

  function StepEven(s: State): State
    requires s.N >= 1 && |s.cells| == s.N
  {
    var n := s.count % s.N;
    s.(cells := s.cells[n := s.cells[n].(sq := s.cells[n].sq + 1)], phase := Written(s.cells[n].words))
  }

  function StepCursor(s: State): State
    requires s.phase.Written?
  {
    s.(count := s.count + 1, hist := s.hist + [s.phase.value], phase := Quiet)
  }

  /** A change of the in-flight cell leaves the N - 1 newest published values in place. */
  lemma NewestUntouched(s: State, s2: State)
    requires Ok(s) && s2.N == s.N && s2.count == s.count && s2.hist == s.hist && |s2.cells| == s.N
    requires forall n | 0 <= n < s.N && n != s.count % s.N :: s2.cells[n] == s.cells[n]
    ensures forall p: nat | s.count - s.N < p < s.count :: InPlace(s2, p)
  {
    forall p: nat | s.count - s.N < p < s.count ensures InPlace(s2, p) {
      if p % s.N == s.count % s.N { SameCellApart(s.N, p, s.count); }
      assert InPlace(s, p);
    }
  }

  /** A live writer's change of the in-flight cell is what readers expect. */
  lemma InFlightRely(s: State, s2: State)
    requires Shape(s) && s.live && s2.N == s.N && s2.W == s.W && |s2.cells| == s.N && s2.hist == s.hist
    requires forall n | 0 <= n < s.N && n != s.count % s.N :: s2.cells[n] == s.cells[n]
    requires var a, b := s.cells[s.count % s.N], s2.cells[s.count % s.N];
             a.sq <= b.sq && (a.sq == b.sq && a.sq % 2 == 0 ==> a == b)
    ensures Rely(s, s2)
  {
    assert InCell(s.N, s.count, s.count % s.N);
  }

  lemma InFlightIsEven(s: State)
    requires Ok(s) && !s.phase.Writing?
    ensures s.cells[s.count % s.N].sq % 2 == 0
  {
  }

  /** A change confined to the in-flight cell keeps the invariant if the new phase describes the new cell. */
  lemma InFlightOk(s: State, s2: State)
    requires Ok(s) && s2.N == s.N && s2.count == s.count && s2.hist == s.hist && Shape(s2)
    requires forall n | 0 <= n < s.N && n != s.count % s.N :: s2.cells[n] == s.cells[n]
    requires var f := s2.cells[s.count % s.N];
             match s2.phase case Quiet => false case Writing => f.sq % 2 == 1 case Written(v) => Holds(f, s.count, v)
    ensures Ok(s2)
  {
    NewestUntouched(s, s2);
    if s.count < s.N { ModIs(s.N, s.count, 0, s.count); }
  }

  lemma OddStep(s: State)
    requires Ok(s) && s.live && !s.phase.Writing?
    ensures Ok(StepOdd(s)) && Rely(s, StepOdd(s))
  {
    InFlightIsEven(s);
    InFlightOk(s, StepOdd(s));
    InFlightRely(s, StepOdd(s));
  }

  lemma DataStep(s: State, index: nat, words: seq<nat>)
    requires Ok(s) && s.live && s.phase.Writing? && |words| == s.W
    ensures Ok(StepData(s, index, words)) && Rely(s, StepData(s, index, words))
  {
    NewestUntouched(s, StepData(s, index, words));
    InFlightRely(s, StepData(s, index, words));
  }

  lemma EvenStep(s: State)
    requires Ok(s) && s.live && s.phase.Writing? && s.cells[s.count % s.N].index == s.count
    ensures Ok(StepEven(s)) && Rely(s, StepEven(s))
  {
    NewestUntouched(s, StepEven(s));
    InFlightRely(s, StepEven(s));
  }

  /** The next in-flight cell still holds the value a lap back, unless it was never written. */
  lemma NextInFlight(s: State)
    requires Ok(s) && s.phase.Written?
    ensures if s.count + 1 >= s.N then InPlace(StepCursor(s), s.count + 1 - s.N)
            else s.cells[(s.count + 1) % s.N].sq == 0
    ensures s.count + 1 >= s.N ==> (s.count + 1 - s.N) % s.N == (s.count + 1) % s.N
  {
    if s.count + 1 >= s.N {
      var p := s.count + 1 - s.N;
      NextLap(s.N, p);
      if p < s.count { assert InPlace(s, p); }
    } else {
      ModIs(s.N, s.count + 1, 0, s.count + 1);
    }
  }

  lemma CursorKeepsOk(s: State)
    requires Ok(s) && s.phase.Written?
    ensures Ok(StepCursor(s))
  {
    var s2 := StepCursor(s);
    forall p: nat | s2.count - s.N < p < s2.count ensures InPlace(s2, p) {
      if p < s.count { assert InPlace(s, p); }
    }
    NextInFlight(s);
    assert Shape(s2);
  }

  lemma CursorStep(s: State)
    requires Ok(s) && s.live && s.phase.Written?
    ensures Ok(StepCursor(s)) && Rely(s, StepCursor(s))
  {
    CursorKeepsOk(s);
  }

  lemma DeadStep(s: State)
    requires Ok(s) && s.live
    ensures Ok(s.(live := false)) && Rely(s, s.(live := false))
  {
    NewestUntouched(s, s.(live := false));
  }

  // ---- what a quiet ring (dead or resting writer) yields ----

  datatype Copy = Zero | Odd | Changed | Copied(index: nat, words: seq<nat>)

  function QuietCopy(c: Cell): Copy {
    if c.sq == 0 then Zero else if c.sq % 2 == 1 then Odd else Copied(c.index, c.words)
  }

  function Min(a: nat, b: nat): nat { if a < b then a else b }

  /** LoadBounded, and every attempt of Load, on a ring whose writer takes no step. */
  function QuietLoad(s: State): LoadResult
    requires s.N >= 1 && |s.cells| == s.N
  {
    if s.count == 0 then Empty
    else
      match QuietCopy(s.cells[(s.count - 1) % s.N])
      case Zero => Empty
      case Copied(index, words) => if index == s.count - 1 then Value(words) else Stalled
      case _ => Stalled
  }

  /** How many entries Snapshot(k) yields on a ring whose writer takes no step: all, or all but the in-flight cell's. */
  ghost function QuietCount(s: State, k: nat): nat
    requires s.N >= 1 && s.count == |s.hist|
  {
    var limit := Min(Min(k, s.count), s.N);
    if limit == s.N && !InPlace(s, s.count - s.N) then s.N - 1 else limit
  }

  /** On a quiet ring a walk entry fails exactly where its value is no longer in place. */
  lemma QuietStop(s: State, k: nat, i: nat)
    requires Ok(s) && i < Min(Min(k, s.count), s.N)
    ensures !InPlace(s, s.count - 1 - i) ==> QuietCount(s, k) == i
    ensures InPlace(s, s.count - 1 - i) ==> QuietCount(s, k) > i
  {
    var p := s.count - 1 - i;
    if s.count < p + s.N { NewestStand(s, p); }
  }

  function Repaired(s: State): State
    requires s.N >= 1 && |s.cells| == s.N
  {
    var n := s.count % s.N;
    if s.cells[n].sq % 2 == 1 then s.(cells := s.cells[n := s.cells[n].(sq := 0)], phase := Quiet) else s
  }

  /** A quiet ring yields its newest value exactly if that value is in place; with N >= 2 it always is. */
  lemma QuietLoadIsNewest(s: State)
    requires Ok(s)
    ensures QuietLoad(s).Value? <==> s.count > 0 && InPlace(s, s.count - 1)
    ensures s.count > 0 && s.N >= 2 ==> QuietLoad(s) == Value(s.hist[s.count - 1])
    ensures QuietLoad(s).Value? ==> QuietLoad(s) == Value(s.hist[s.count - 1])
  {
    if s.count > 0 {
      if s.N >= 2 { NewestStand(s, s.count - 1); }
      if QuietLoad(s).Value? { IndexTells(s, s.count - 1); }
    }
  }

  /**
   A writer that died with a store begun costs a quiet snapshot exactly the entry of the in-flight cell, before and
   after the repair.
   */
  lemma CrashCostsOneEntry(s: State, k: nat)
    requires Ok(s) && !s.phase.Quiet?
    ensures QuietCount(s, k) == QuietCount(Repaired(s), k) == Min(Min(k, s.count), s.N - 1)
  {
    if s.count >= s.N {
      NextLap(s.N, s.count - s.N);
      assert !InPlace(s, s.count - s.N) && !InPlace(Repaired(s), s.count - s.N);
    }
  }

  /** Depth one: a crash between the even store and the cursor store leaves a value no read accepts, repaired or not. */
  lemma DepthOneStalls(s: State)
    requires Ok(s) && s.N == 1 && s.phase.Written? && s.count > 0
    ensures QuietLoad(s).Stalled? && Repaired(s) == s
  {
  }

  /**
   When a read of a quiet ring finds no value to return and Load would retry for ever: exactly at depth one, with
   something published and a store begun but not finished.
   */
  lemma StallsExactlyAtDepthOne(s: State)
    requires Ok(s)
    ensures QuietLoad(s).Stalled? <==> s.N == 1 && s.count > 0 && !s.phase.Quiet?
  {
    QuietLoadIsNewest(s);
  }

  lemma RepairOk(s: State)
    requires Ok(s)
    ensures Ok(Repaired(s)) && !Repaired(s).phase.Writing?
  {
    NewestUntouched(s, Repaired(s));
    if s.count < s.N { ModIs(s.N, s.count, 0, s.count); }
  }

  /** out lists the values published at positions c-1, c-2, ... */
  ghost predicate NewestFirst(hist: seq<seq<nat>>, c: nat, out: seq<seq<nat>>) {
    |out| <= c <= |hist| && forall j | 0 <= j < |out| :: out[j] == hist[c - 1 - j]
  }

  lemma NewestFirstGrows(hist: seq<seq<nat>>, c: nat, out: seq<seq<nat>>, words: seq<nat>)
    requires NewestFirst(hist, c, out) && |out| < c && words == hist[c - 1 - |out|]
    ensures NewestFirst(hist, c, out + [words])
  {
  }

  datatype LoadResult = Value(value: seq<nat>) | Empty | Stalled

  /**
   A reader that captured position p as published in s0, and at a later instant `anchor` finds its cell odd, empty or
   holding another index, or at a still later instant finds it changed, knows that the writer reached position p + N.
   */
  lemma FailureMeansLap(s0: State, anchor: State, s: State, p: nat)
    requires Ok(s0) && Ok(anchor) && Ok(s) && Rely(s0, anchor) && Rely(anchor, s) && p < |s0.hist|
    ensures var a, b := anchor.cells[p % s0.N], s.cells[p % s0.N];
            a.sq == 0 || a.sq % 2 == 1 || a.index != p || a.sq != b.sq ==> p + s0.N <= |s.hist|
  {
    var n := p % s0.N;
    var a, b := anchor.cells[n], s.cells[n];
    if a.sq == 0 || a.sq % 2 == 1 || a.index != p {
      if anchor.count < p + s0.N { NewestStand(anchor, p); }
    } else if a.sq != b.sq {
      assert CellRely(s0.N, n, a, b, |anchor.hist|, |s.hist|);
      var q :| |anchor.hist| <= q <= |s.hist| && InCell(s0.N, q, n);
      SameCellApart(s0.N, p, q);
    }
  }

  /** Counts a ring's cursor loads. Only LoadCursor and its callers have it in their frame. */
  class Meter {
    ghost var cursorLoads: nat
  }

  class Ring {
    const N: nat
    const W: nat
    const cells: array<Cell>
    var count: nat
    ghost var hist: seq<seq<nat>>
    ghost var phase: Phase
    ghost var live: bool
    ghost const meter: Meter

    ghost function Abs(): State
      reads this, cells
    {
      State(N, W, cells[..], count, hist, phase, live)
    }

    ghost predicate Valid()
      reads this, cells
    {
      Ok(Abs())
    }

    /** The zero-initializing constructor: every sequence even and zero, nothing published. */
    constructor (N: nat, W: nat)
      requires N >= 1
      ensures Valid() && fresh(cells) && fresh(meter) && this.N == N && this.W == W && hist == [] && phase.Quiet? && live
    {
      this.N, this.W := N, W;
      cells := new Cell[N](_ => Cell(0, 0, seq(W, _ => 0)));
      count, hist, phase, live := 0, [], Quiet, true;
      meter := new Meter;
    }

    /**
     Any number of steps of a concurrent Store. The body is empty because no step at all is allowed; callers learn
     only what Rely admits, which is transitive and which every step of Store keeps. A caller may bound the number
     of values that are ever published by `horizon`; -1 stands for no bound.
     */
    method Interfere(ghost horizon: int)
      requires Valid()
      modifies this, cells
      ensures Valid() && Rely(old(Abs()), Abs())
      ensures old(|hist|) <= horizon ==> |hist| <= horizon
    {
    }

    method PutOdd(n: nat, s: nat)
      requires Valid() && live && !phase.Writing? && n == count % N && s == cells[n].sq
      modifies this, cells
      ensures Valid() && Abs() == StepOdd(old(Abs())) && Rely(old(Abs()), Abs())
    {
      OddStep(Abs());
      cells[n] := cells[n].(sq := s + 1);
      phase := Writing;
      assert Abs() == StepOdd(old(Abs()));
    }

    method PutIndex(n: nat, idx: nat)
      requires Valid() && live && phase.Writing? && n == count % N
      modifies this, cells
      ensures Valid() && Abs() == StepData(old(Abs()), idx, old(cells[n].words)) && Rely(old(Abs()), Abs())
    {
      DataStep(Abs(), idx, cells[n].words);
      cells[n] := cells[n].(index := idx);
      assert Abs() == StepData(old(Abs()), idx, old(cells[n].words));
    }

    method PutWord(n: nat, i: nat, x: nat)
      requires Valid() && live && phase.Writing? && n == count % N && i < W
      modifies this, cells
      ensures Valid() && Abs() == StepData(old(Abs()), old(cells[n].index), old(cells[n].words)[i := x])
      ensures Rely(old(Abs()), Abs())
    {
      DataStep(Abs(), cells[n].index, cells[n].words[i := x]);
      cells[n] := cells[n].(words := cells[n].words[i := x]);
      assert Abs() == StepData(old(Abs()), old(cells[n].index), old(cells[n].words)[i := x]);
    }

    method PutEven(n: nat, s: nat)
      requires Valid() && live && phase.Writing? && n == count % N && cells[n].index == count && cells[n].sq == s + 1
      modifies this, cells
      ensures Valid() && Abs() == StepEven(old(Abs())) && Rely(old(Abs()), Abs())
    {
      EvenStep(Abs());
      cells[n] := cells[n].(sq := s + 2);
      phase := Written(cells[n].words);
      assert Abs() == StepEven(old(Abs()));
    }

    method PutCursor(idx: nat)
      requires Valid() && live && phase.Written? && idx == count
      modifies this
      ensures Valid() && Abs() == StepCursor(old(Abs())) && Rely(old(Abs()), Abs())
      ensures count >= N ==> InPlace(Abs(), count - N)
    {
      CursorStep(Abs());
      NextInFlight(Abs());
      count := idx + 1;
      hist := hist + [phase.value];
      phase := Quiet;
      assert Abs() == StepCursor(old(Abs()));
    }

    method Die()
      requires Valid() && live
      modifies this
      ensures Valid() && Abs() == old(Abs()).(live := false) && Rely(old(Abs()), Abs())
    {
      DeadStep(Abs());
      live := false;
      assert Abs() == old(Abs()).(live := false);
    }

    /** Store: every atomic step keeps the ring's invariant and is a step that concurrent readers expect. */
    method Store(value: seq<nat>)
      requires Valid() && live && !phase.Writing? && |value| == W
      modifies this, cells
      ensures Valid() && live && phase.Quiet? && hist == old(hist) + [value] && Rely(old(Abs()), Abs())
      ensures count >= N ==> InPlace(Abs(), count - N)
    {
      StoreUpTo(value, W + 4);
    }

    /**
     Store, by a writer that dies after `steps` of its W + 4 stores (odd, index, words, even, cursor). Nothing but the
     in-flight cell is touched, and nothing is published unless the last store happened.
     */
    method StoreUpTo(value: seq<nat>, steps: nat)
      requires Valid() && live && !phase.Writing? && |value| == W
      modifies this, cells
      ensures Valid() && Rely(old(Abs()), Abs())
      ensures live == (steps >= W + 4)
      ensures hist == old(hist) + (if steps >= W + 4 then [value] else [])
      ensures phase == if steps == 0 then old(phase) else if steps <= W + 2 then Writing
                       else if steps == W + 3 then Written(value) else Quiet
      ensures steps == 0 ==> cells[..] == old(cells[..])
      ensures steps >= W + 4 && count >= N ==> InPlace(Abs(), count - N)
    {
      ghost var s0 := Abs();
      var idx := count;
      var n := idx % N;
      var s := cells[n].sq;
      if steps == 0 { Die(); return; }
      PutOdd(n, s);
      if steps == 1 { FinishDying(s0); return; }
      FillUpTo(s0, value, idx, n, s, steps - 1);
    }

    /** The stores after the odd sequence word: index, words, even, cursor. */
    method FillUpTo(ghost s0: State, value: seq<nat>, idx: nat, n: nat, s: nat, steps: nat)
      requires Valid() && live && phase.Writing? && idx == count && n == count % N && |value| == W
      requires cells[n].sq == s + 1 && Rely(s0, Abs()) && steps >= 1
      modifies this, cells
      ensures Valid() && Rely(s0, Abs()) && live == (steps >= W + 3)
      ensures hist == old(hist) + (if steps >= W + 3 then [value] else [])
      ensures phase == if steps <= W + 1 then Writing else if steps == W + 2 then Written(value) else Quiet
      ensures steps >= W + 3 && count >= N ==> InPlace(Abs(), count - N)
    {
      ghost var s1 := Abs();
      PutIndex(n, idx);
      RelyTransitive(s0, s1, Abs());
      var done := PutWords(s0, n, value, steps - 1);
      if done < W { FinishDying(s0); return; }
      assert cells[n].words == value;
      if steps == W + 1 { FinishDying(s0); return; }
      PublishUpTo(s0, value, n, s, steps - W - 1);
    }

    /** The last two stores: the even sequence word, and the cursor unless the writer dies before it. */
    method PublishUpTo(ghost s0: State, value: seq<nat>, n: nat, s: nat, steps: nat)
      requires Valid() && live && phase.Writing? && n == count % N && Rely(s0, Abs()) && steps >= 1
      requires cells[n].index == count && cells[n].sq == s + 1 && cells[n].words == value
      modifies this, cells
      ensures Valid() && Rely(s0, Abs()) && live == (steps >= 2)
      ensures hist == old(hist) + (if steps >= 2 then [value] else [])
      ensures phase == if steps == 1 then Written(value) else Quiet
      ensures steps >= 2 && count >= N ==> InPlace(Abs(), count - N)
    {
      ghost var s2 := Abs();
      PutEven(n, s);
      RelyTransitive(s0, s2, Abs());
      if steps == 1 { FinishDying(s0); return; }
      ghost var s3 := Abs();
      PutCursor(count);
      RelyTransitive(s0, s3, Abs());
    }

    /** The word stores, up to the given number of them. */
    method PutWords(ghost s0: State, n: nat, value: seq<nat>, most: nat) returns (done: nat)
      requires Valid() && live && phase.Writing? && n == count % N && |value| == W && Rely(s0, Abs())
      modifies this, cells
      ensures Valid() && live && phase.Writing? && Rely(s0, Abs()) && count == old(count) && hist == old(hist)
      ensures done == if most < W then most else W
      ensures cells[n].index == old(cells[n].index) && cells[n].sq == old(cells[n].sq)
      ensures cells[n].words[..done] == value[..done]
    {
      done := 0;
      while done < W && done < most
        invariant Valid() && live && phase.Writing? && Rely(s0, Abs()) && count == old(count) && hist == old(hist)
        invariant done <= W && done <= most
        invariant cells[n].index == old(cells[n].index) && cells[n].sq == old(cells[n].sq)
        invariant cells[n].words[..done] == value[..done]
      {
        ghost var si := Abs();
        PutWord(n, done, value[done]);
        RelyTransitive(s0, si, Abs());
        done := done + 1;
      }
    }

    method FinishDying(ghost s0: State)
      requires Valid() && live && Rely(s0, Abs())
      modifies this
      ensures Valid() && Abs() == old(Abs()).(live := false) && Rely(s0, Abs())
    {
      ghost var s1 := Abs();
      Die();
      RelyTransitive(s0, s1, Abs());
    }

    /** Index and words of cell n, each load after arbitrary writer steps; sound if the sequence word is still s1. */
    method CopyWords(n: nat, s1: nat, ghost anchor: State, ghost horizon: int) returns (idx: nat, staged: seq<nat>)
      requires Valid() && n < N && s1 % 2 == 0 && s1 == cells[n].sq && anchor == Abs()
      modifies this, cells
      ensures Valid() && Rely(anchor, Abs()) && (old(|hist|) <= horizon ==> |hist| <= horizon)
      ensures cells[n].sq == s1 ==> idx == anchor.cells[n].index && staged == anchor.cells[n].words
    {
      Interfere(horizon);
      idx := cells[n].index;
      staged := [];
      for i := 0 to W
        invariant Valid() && Rely(anchor, Abs()) && |staged| == i
        invariant cells[n].sq == s1 ==> idx == anchor.cells[n].index && staged == anchor.cells[n].words[..i]
        invariant old(|hist|) <= horizon ==> |hist| <= horizon
      {
        ghost var before := Abs();
        Interfere(horizon);
        RelyTransitive(anchor, before, Abs());
        staged := staged + [cells[n].words[i]];
      }
      ghost var before := Abs();
      Interfere(horizon);
      RelyTransitive(anchor, before, Abs());
    }

    /**
     The cell protocol shared by every read verb, for the cell of a published position p: first sequence load, index,
     words, second sequence load, with the writer free to step between any two of them.
     */
    method CopyCell(p: nat, ghost horizon: int) returns (r: Copy)
      requires Valid() && p < |hist|
      modifies this, cells
      ensures Valid() && Rely(old(Abs()), Abs()) && (old(|hist|) <= horizon ==> |hist| <= horizon)
      ensures r.Copied? && r.index == p ==> r.words == hist[p]
      ensures !(r.Copied? && r.index == p) ==> p + N <= |hist|
      ensures r.Zero? ==> old(cells[p % N].sq) == 0
      ensures !old(live) ==> r == QuietCopy(old(cells[p % N]))
    {
      ghost var s0 := Abs();
      var n := p % N;
      Interfere(horizon);
      ghost var anchor := Abs();
      var s1 := cells[n].sq;
      FailureMeansLap(s0, anchor, anchor, p);
      if s1 == 0 { return Zero; }
      if s1 % 2 == 1 { return Odd; }
      var idx, staged := CopyWords(n, s1, anchor, horizon);
      RelyTransitive(s0, anchor, Abs());
      FailureMeansLap(s0, anchor, Abs(), p);
      if cells[n].sq != s1 { return Changed; }
      if idx == p { IndexTells(anchor, p); }
      return Copied(idx, staged);
    }

    /** The cursor load (R0): the history published at this very instant. */
    method LoadCursor(ghost horizon: int) returns (c: nat, ghost capture: seq<seq<nat>>)
      requires Valid()
      modifies this, cells, meter
      ensures Valid() && Rely(old(Abs()), Abs()) && (old(|hist|) <= horizon ==> |hist| <= horizon)
      ensures c == |capture| && capture == hist
      ensures meter.cursorLoads == old(meter.cursorLoads) + 1
    {
      Interfere(horizon);
      c := count;
      capture := hist;
      meter.cursorLoads := meter.cursorLoads + 1;
    }

    /** The cell protocol for the newest published position, in a call begun in s0. */
    method CopyLast(ghost s0: State, p: nat, ghost horizon: int) returns (r: Copy)
      requires Valid() && Rely(s0, Abs()) && p + 1 == |hist|
      modifies this, cells
      ensures Valid() && Rely(s0, Abs()) && old(hist) <= hist && (old(|hist|) <= horizon ==> |hist| <= horizon)
      ensures r.Copied? && r.index == p ==> r.words == old(hist)[p]
      ensures !(r.Copied? && r.index == p) ==> p + N <= |hist|
      ensures N >= 2 ==> !r.Zero?
      ensures !s0.live ==> r == QuietCopy(s0.cells[p % N])
    {
      ghost var s1 := Abs();
      if N >= 2 { NewestStand(s1, p); }
      r := CopyCell(p, horizon);
      RelyTransitive(s0, s1, Abs());
    }

    /** The loads of one pass through the loop shared by Load and LoadBounded: the cursor, then its newest cell. */
    method CopyNewest(ghost s0: State, ghost horizon: int) returns (c: nat, r: Copy, ghost capture: seq<seq<nat>>)
      requires Valid() && Rely(s0, Abs())
      modifies this, cells, meter
      ensures Valid() && Rely(s0, Abs()) && (old(|hist|) <= horizon ==> |hist| <= horizon)
      ensures old(hist) <= capture <= hist && c == |capture|
      ensures c > 0 && r.Copied? && r.index == c - 1 ==> r.words == capture[c - 1]
      ensures c > 0 && !(r.Copied? && r.index == c - 1) ==> c - 1 + N <= |hist|
      ensures c > 0 && N >= 2 ==> !r.Zero?
      ensures !s0.live ==> c == s0.count && (c > 0 ==> r == QuietCopy(s0.cells[(c - 1) % N]))
      ensures meter.cursorLoads == old(meter.cursorLoads) + 1
    {
      ghost var s1 := Abs();
      c, capture := LoadCursor(horizon);
      RelyTransitive(s0, s1, Abs());
      r := Zero;
      if c > 0 { r := CopyLast(s0, c - 1, horizon); }
    }

    /** One pass through the loop shared by Load and LoadBounded; Stalled stands for "retry". */
    method Attempt(ghost s0: State, ghost horizon: int) returns (res: LoadResult, ghost capture: seq<seq<nat>>)
      requires Valid() && Rely(s0, Abs())
      modifies this, cells, meter
      ensures Valid() && Rely(s0, Abs()) && (old(|hist|) <= horizon ==> |hist| <= horizon)
      ensures old(hist) <= capture <= hist
      ensures match res
              case Value(v) => capture != [] && v == capture[|capture| - 1]
              case Empty => capture == [] || N == 1
              case Stalled => |capture| + N - 1 <= |hist|
      ensures !s0.live ==> res == QuietLoad(s0)
      ensures meter.cursorLoads == old(meter.cursorLoads) + 1
    {
      var c: nat, r: Copy;
      c, r, capture := CopyNewest(s0, horizon);
      if c == 0 || r.Zero? { return Empty, capture; }
      if r.Copied? && r.index == c - 1 { return Value(r.words), capture; }
      return Stalled, capture;
    }

    /**
     Load: returns the newest value as of the instant of its final cursor load, which lies within the call. Every
     retry costs the writer N - 1 publications, so against at most `horizon` publications in all, and in particular
     against a dead writer, the loop ends. At depth one a retry costs nothing, and against a dead writer the loop ends
     exactly if its first pass does.
     */
    method Load(ghost horizon: nat) returns (res: LoadResult, ghost capture: seq<seq<nat>>, ghost retries: nat)
      requires Valid() && |hist| <= horizon
      requires N == 1 ==> !live && !QuietLoad(Abs()).Stalled?
      modifies this, cells, meter
      ensures Valid() && Rely(old(Abs()), Abs()) && old(hist) <= capture <= hist
      ensures res.Value? ==> capture != [] && res == Value(capture[|capture| - 1])
      ensures N >= 2 ==> res == if capture == [] then Empty else Value(capture[|capture| - 1])
      ensures retries * (N - 1) <= |hist| - |old(hist)|
      ensures !old(live) ==> res == QuietLoad(old(Abs())) && !res.Stalled?
      ensures meter.cursorLoads == old(meter.cursorLoads) + retries + 1
    {
      ghost var s0 := Abs();
      retries := 0;
      while true
        invariant Valid() && Rely(s0, Abs()) && |hist| <= horizon
        invariant retries * (N - 1) <= |hist| - |s0.hist|
        invariant meter.cursorLoads == old(meter.cursorLoads) + retries
        invariant !s0.live && retries > 0 ==> QuietLoad(s0).Stalled?
        decreases horizon - |hist|
      {
        res, capture := Attempt(s0, horizon);
        if !res.Stalled? { return; }
        assert (retries + 1) * (N - 1) == retries * (N - 1) + (N - 1);
        retries := retries + 1;
      }
    }

    /**
     LoadBounded: as Load, but gives up after maxRetries + 1 attempts, which takes (maxRetries + 1) * (N - 1)
     publications. On a quiet ring the outcome is QuietLoad.
     */
    method LoadBounded(maxRetries: nat) returns (res: LoadResult, ghost capture: seq<seq<nat>>)
      requires Valid()
      modifies this, cells, meter
      ensures Valid() && Rely(old(Abs()), Abs()) && old(hist) <= capture <= hist
      ensures match res
              case Value(v) => capture != [] && v == capture[|capture| - 1]
              case Empty => capture == [] || N == 1
              case Stalled => (maxRetries + 1) * (N - 1) <= |hist| - |old(hist)|
      ensures !old(live) ==> res == QuietLoad(old(Abs()))
      ensures old(meter.cursorLoads) < meter.cursorLoads <= old(meter.cursorLoads) + maxRetries + 1
      ensures res.Stalled? ==> meter.cursorLoads == old(meter.cursorLoads) + maxRetries + 1
    {
      ghost var s0 := Abs();
      capture := hist;
      for attempt := 0 to maxRetries + 1
        invariant Valid() && Rely(s0, Abs()) && s0.hist <= capture <= hist
        invariant attempt * (N - 1) <= |hist| - |s0.hist|
        invariant meter.cursorLoads == old(meter.cursorLoads) + attempt
        invariant !s0.live && attempt > 0 ==> QuietLoad(s0).Stalled?
      {
        res, capture := Attempt(s0, -1);
        if !res.Stalled? { return; }
        assert (attempt + 1) * (N - 1) == attempt * (N - 1) + (N - 1);
      }
      return Stalled, capture;
    }

    /** One entry of a snapshot walk begun in s0 under cursor c. */
    method WalkEntry(ghost s0: State, c: nat, i: nat) returns (ok: bool, words: seq<nat>)
      requires Valid() && Ok(s0) && Rely(s0, Abs()) && i < c <= |hist|
      modifies this, cells
      ensures Valid() && Rely(s0, Abs()) && old(hist) <= hist
      ensures if ok then words == hist[c - 1 - i] else c - 1 - i + N <= |hist|
      ensures !s0.live && c == s0.count ==> ok == InPlace(s0, c - 1 - i)
    {
      ghost var s1 := Abs();
      var want := c - 1 - i;
      var r := CopyCell(want, -1);
      RelyTransitive(s0, s1, Abs());
      if !s0.live && r.Copied? && r.index == want { IndexTells(s0, want); }
      ok := r.Copied? && r.index == want;
      words := if ok then r.words else [];
    }

    /** On a quiet ring the walk fails exactly at entry QuietCount. */
    method WalkCounted(ghost s0: State, c: nat, i: nat, ghost k: nat) returns (ok: bool, words: seq<nat>)
      requires Valid() && Ok(s0) && Rely(s0, Abs()) && i < Min(Min(k, c), N) && c <= |hist|
      modifies this, cells
      ensures Valid() && Rely(s0, Abs()) && old(hist) <= hist
      ensures if ok then words == hist[c - 1 - i] else c - 1 - i + N <= |hist|
      ensures !s0.live && c == s0.count ==> if ok then QuietCount(s0, k) > i else QuietCount(s0, k) == i
    {
      if !s0.live && c == s0.count { QuietStop(s0, k, i); }
      ok, words := WalkEntry(s0, c, i);
    }

    /**
     Snapshot: a prefix of the newest-first list as of the cursor load. If it is shorter than min(k, c, N), the writer
     has reached the position that overwrites the first missing entry, so every older entry is overwritten as well.
     */
    method Snapshot(k: nat) returns (out: seq<seq<nat>>, ghost capture: seq<seq<nat>>)
      requires Valid()
      modifies this, cells, meter
      ensures Valid() && Rely(old(Abs()), Abs()) && old(hist) <= capture <= hist
      ensures |out| <= Min(Min(k, |capture|), N) && NewestFirst(capture, |capture|, out)
      ensures |out| < Min(Min(k, |capture|), N) ==> |capture| - 1 - |out| + N <= |hist|
      ensures !old(live) ==> capture == old(hist) && |out| == QuietCount(old(Abs()), k)
      ensures meter.cursorLoads == old(meter.cursorLoads) + 1
    {
      ghost var s0 := Abs();
      var c: nat;
      c, capture := LoadCursor(-1);
      var limit := Min(Min(k, c), N);
      out := [];
      for i := 0 to limit
        invariant Valid() && Rely(s0, Abs()) && capture <= hist && |out| == i && NewestFirst(capture, c, out)
        invariant !s0.live ==> i <= QuietCount(s0, k)
        invariant meter.cursorLoads == old(meter.cursorLoads) + 1
        modifies this, cells
      {
        var ok, words := WalkCounted(s0, c, i, k);
        if !ok { return; }
        NewestFirstGrows(capture, c, out, words);
        out := out + [words];
      }
    }

    /**
     RepairAfterWriterCrash: the writer is dead, and the reclaiming one is the sole writer. An odd in-flight cell is
     retracted to "never written"; everything else is left alone, and the ring is ready for the next Store.
     */
    method RepairAfterWriterCrash()
      requires Valid() && !live
      modifies this, cells
      ensures Valid() && Abs() == Repaired(old(Abs()))
    {
      RepairOk(Abs());
      var n := count % N;
      if cells[n].sq % 2 == 1 {
        cells[n] := cells[n].(sq := 0);
        phase := Quiet;
      }
      assert Abs() == Repaired(old(Abs()));
    }

    /** Both read verbs on a ring whose writer is dead change nothing and yield exactly what is in place. */
    method QuietReads(k: nat) returns (newest: LoadResult, out: seq<seq<nat>>)
      requires Valid() && !live
      modifies this, cells, meter
      ensures Valid() && Abs() == old(Abs())
      ensures newest == QuietLoad(Abs())
      ensures NewestFirst(hist, |hist|, out) && |out| == QuietCount(Abs(), k)
    {
      ghost var c;
      newest, c := LoadBounded(0);
      out, c := Snapshot(k);
    }

    /** The reclaiming writer takes over a repaired ring. */
    method Claim()
      requires Valid() && !live
      modifies this
      ensures Valid() && Abs() == old(Abs()).(live := true)
    {
      NewestUntouched(Abs(), Abs().(live := true));
      live := true;
      assert Abs() == old(Abs()).(live := true);
    }
  }

  /** A writer dies after one or more, but not all, of the stores of Store: the newest published value stays readable. */
  method CrashMidStore(ring: Ring, lost: seq<nat>, steps: nat, k: nat) returns (newest: LoadResult, out: seq<seq<nat>>)
    requires ring.Valid() && ring.live && ring.phase.Quiet? && ring.N >= 2 && ring.count >= 1
    requires |lost| == ring.W && 1 <= steps < ring.W + 4
    modifies ring, ring.cells, ring.meter
    ensures ring.Valid() && !ring.live && !ring.phase.Quiet? && ring.hist == old(ring.hist)
    ensures newest == Value(ring.hist[|ring.hist| - 1])
    ensures NewestFirst(ring.hist, |ring.hist|, out) && |out| == Min(Min(k, |ring.hist|), ring.N - 1)
  {
    ring.StoreUpTo(lost, steps);
    QuietLoadIsNewest(ring.Abs());
    CrashCostsOneEntry(ring.Abs(), k);
    newest, out := ring.QuietReads(k);
  }

  /** The reclaiming writer repairs the ring: readers see exactly what they saw before. */
  method ReclaimAfterCrash(ring: Ring, k: nat) returns (newest: LoadResult, out: seq<seq<nat>>)
    requires ring.Valid() && !ring.live && !ring.phase.Quiet? && ring.N >= 2 && ring.count >= 1
    modifies ring, ring.cells, ring.meter
    ensures ring.Valid() && ring.live && !ring.phase.Writing? && ring.hist == old(ring.hist)
    ensures newest == Value(ring.hist[|ring.hist| - 1])
    ensures NewestFirst(ring.hist, |ring.hist|, out) && |out| == Min(Min(k, |ring.hist|), ring.N - 1)
  {
    CrashCostsOneEntry(ring.Abs(), k);
    ring.RepairAfterWriterCrash();
    QuietLoadIsNewest(ring.Abs());
    newest, out := ring.QuietReads(k);
    ring.Claim();
  }

  /**
   The crash story at depth two or more: a snapshot loses the in-flight cell's entry alone, repair changes nothing
   that readers see, and the next Store publishes at the same position and restores full depth.
   */
  method CrashStory(ring: Ring, lost: seq<nat>, steps: nat, next: seq<nat>, k: nat)
    returns (dead: LoadResult, kept: seq<seq<nat>>, repaired: LoadResult, again: seq<seq<nat>>)
    requires ring.Valid() && ring.live && ring.phase.Quiet? && ring.N >= 2 && ring.count >= 1
    requires |lost| == ring.W && |next| == ring.W && 1 <= steps < ring.W + 4
    modifies ring, ring.cells, ring.meter
    ensures dead == repaired == Value(old(ring.hist)[|old(ring.hist)| - 1])
    ensures kept == again && |kept| == Min(Min(k, |old(ring.hist)|), ring.N - 1)
    ensures ring.Valid() && ring.live && ring.phase.Quiet? && ring.hist == old(ring.hist) + [next]
    ensures QuietCount(ring.Abs(), k) == Min(Min(k, |ring.hist|), ring.N)
  {
    dead, kept := CrashMidStore(ring, lost, steps, k);
    repaired, again := ReclaimAfterCrash(ring, k);
    ring.Store(next);
  }

  lemma LastDataCounts(s: State, index: nat, words: seq<nat>, words2: seq<nat>)
    requires s.N >= 1 && |s.cells| == s.N
    ensures StepData(StepData(s, index, words), index, words2) == StepData(s, index, words2)
  {
  }

  function Mixed(value: seq<nat>, words: seq<nat>, i: nat): (r: seq<nat>)
    requires i <= |value| == |words|
    ensures |r| == |value|
  {
    value[..i] + words[i..]
  }

  lemma NextMixed(value: seq<nat>, words: seq<nat>, i: nat)
    requires i < |value| == |words|
    ensures Mixed(value, words, i)[i := value[i]] == Mixed(value, words, i + 1)
  {
  }

  /** One of the word stores of a Store that began in s. */
  method FillWord(ring: Ring, ghost s: State, n: nat, ghost index: nat, value: seq<nat>, ghost words: seq<nat>, i: nat)
    requires ring.Valid() && ring.live && ring.phase.Writing? && n == ring.count % ring.N
    requires i < |value| == |words| == ring.W
    requires s.N >= 1 && |s.cells| == s.N && ring.Abs() == StepData(s, index, Mixed(value, words, i))
    modifies ring, ring.cells
    ensures ring.Valid() && ring.Abs() == StepData(s, index, Mixed(value, words, i + 1))
  {
    NextMixed(value, words, i);
    LastDataCounts(s, index, Mixed(value, words, i), Mixed(value, words, i + 1));
    assert ring.cells[n] == ring.Abs().cells[n];
    ring.PutWord(n, i, value[i]);
  }

  /** All word stores of one Store. */
  method FillCell(ring: Ring, n: nat, value: seq<nat>)
    requires ring.Valid() && ring.live && ring.phase.Writing? && n == ring.count % ring.N && |value| == ring.W
    modifies ring, ring.cells
    ensures ring.Valid() && ring.Abs() == StepData(old(ring.Abs()), old(ring.cells[n].index), value)
  {
    ghost var s, index, words := ring.Abs(), ring.cells[n].index, ring.cells[n].words;
    assert Mixed(value, words, 0) == words;
    assert StepData(s, index, words) == s;
    for i := 0 to ring.W
      invariant ring.Valid() && ring.Abs() == StepData(s, index, Mixed(value, words, i))
    {
      FillWord(ring, s, n, index, value, words, i);
    }
    assert Mixed(value, words, ring.W) == value;
  }

  /** The stores up to the last word, and the cell they leave. */
  method OpenAndFill(ring: Ring, value: seq<nat>)
    requires ring.Valid() && ring.live && !ring.phase.Writing? && |value| == ring.W
    modifies ring, ring.cells
    ensures ring.Valid() && ring.Abs() == StepData(StepOdd(old(ring.Abs())), old(ring.count), value)
  {
    ghost var s0 := ring.Abs();
    var n := ring.count % ring.N;
    ring.PutOdd(n, ring.cells[n].sq);
    ghost var words := ring.cells[n].words;
    ring.PutIndex(n, ring.count);
    assert ring.cells[n].index == s0.count;
    FillCell(ring, n, value);
    DataTwice(StepOdd(s0), s0.count, words, value);
  }

  lemma DataTwice(s: State, index: nat, words: seq<nat>, value: seq<nat>)
    requires s.N >= 1 && |s.cells| == s.N
    ensures StepData(StepData(s, index, words), index, value) == StepData(s, index, value)
  {
  }

  /** One whole Store, and the cell it leaves. */
  method StoreAlone(ring: Ring, value: seq<nat>)
    requires ring.Valid() && ring.live && ring.phase.Quiet? && |value| == ring.W
    modifies ring, ring.cells
    ensures ring.Valid() && ring.live && ring.phase.Quiet? && ring.hist == old(ring.hist) + [value]
    ensures var n := old(ring.count) % ring.N;
            ring.cells[..] == old(ring.cells[..])[n := Cell(old(ring.cells[n].sq) + 2, old(ring.count), value)]
  {
    var n := ring.count % ring.N;
    var s := ring.cells[n].sq;
    OpenAndFill(ring, value);
    ring.PutEven(n, s);
    ring.PutCursor(ring.count);
  }

  /** Stores of one value into the cells after the first, until the first is next again. */
  method FillLap(ring: Ring, value: seq<nat>)
    requires ring.Valid() && ring.live && ring.phase.Quiet? && |value| == ring.W && ring.count == 1
    modifies ring, ring.cells
    ensures ring.Valid() && ring.live && ring.phase.Quiet? && ring.count == ring.N
    ensures ring.cells[0] == old(ring.cells[0])
    ensures old(ring.hist) <= ring.hist && forall k | 1 <= k < ring.N :: ring.hist[k] == value
  {
    while ring.count < ring.N
      invariant ring.Valid() && ring.live && ring.phase.Quiet? && 1 <= ring.count <= ring.N
      invariant ring.cells[0] == old(ring.cells[0])
      invariant old(ring.hist) <= ring.hist && forall k | 1 <= k < ring.count :: ring.hist[k] == value
      decreases ring.N - ring.count
    {
      ModIs(ring.N, ring.count, 0, ring.count);
      StoreAlone(ring, value);
    }
  }

  /** The writer dies right after the odd store of its next store; the ring is repaired and claimed. */
  method DieOddAndRepair(ring: Ring)
    requires ring.Valid() && ring.live && ring.phase.Quiet?
    requires ring.cells[ring.count % ring.N].sq % 2 == 0
    modifies ring, ring.cells
    ensures ring.Valid() && ring.live && ring.phase.Quiet? && ring.hist == old(ring.hist)
    ensures ring.cells[ring.count % ring.N].sq == 0
  {
    var n := ring.count % ring.N;
    ring.PutOdd(n, ring.cells[n].sq);
    ring.Die();
    ring.RepairAfterWriterCrash();
    ring.Claim();
  }

  /**
   What validation does not cover, at every depth, for two words or more and at every place j between them: a copy
   that spans a crash, its repair and the next Store on the cell sees the same even sequence word twice, and the
   index it expects, yet joins the first words of one value to the last ones of another. c, s1, idx, s2 and copy are
   what the reader's loads return.
   */
  method TornAcrossRepair(ring: Ring, a: seq<nat>, b: seq<nat>, j: nat)
    returns (c: nat, s1: nat, idx: nat, s2: nat, copy: seq<nat>)
    requires ring.Valid() && ring.live && ring.phase.Quiet? && ring.hist == []
    requires |a| == |b| == ring.W && 0 < j < ring.W
    modifies ring, ring.cells
    ensures ring.Valid() && forall v | v in ring.hist :: v == a || v == b
    ensures s1 == s2 && s1 != 0 && s1 % 2 == 0 && c > 0 && idx == c - 1
    ensures copy == a[..j] + b[j..]
    ensures a[0] != b[0] && a[j] != b[j] ==> copy !in ring.hist
  {
    ModIs(ring.N, 0, 0, 0);
    StoreAlone(ring, a);
    c := ring.count;
    s1 := ring.cells[0].sq;
    idx := ring.cells[0].index;
    copy := ring.cells[0].words[..j];
    FillLap(ring, a);
    assert ring.hist[0] == a;
    ModIs(ring.N, ring.N, 1, 0);
    DieOddAndRepair(ring);
    StoreAlone(ring, b);
    copy := copy + ring.cells[0].words[j..];
    s2 := ring.cells[0].sq;
  }
}
