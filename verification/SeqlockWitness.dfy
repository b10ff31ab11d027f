/**
 Runs of the weak-memory ring that show that bounds of SeqlockReaders are met: for every depth, a reader that has to
 retry although the writer has published only N - 1 values since the reader captured its cursor.
 */
module SeqlockWitness {
  import opened WeakMemory
  import opened SeqlockWeak
  import opened SeqlockReaders

  function Newest(run: seq<System>): System
    requires |run| > 0
  {
    run[|run| - 1]
  }

  lemma OneStep(cfg: Cfg, run: seq<System>, a: Action) returns (run2: seq<System>)
    requires Run(cfg, run) && Enabled(cfg, Newest(run), a)
    ensures Run(cfg, run2) && run <= run2 && Newest(run2) == Act(cfg, Newest(run), a)
    ensures SystemInv(cfg, Newest(run2))
  {
    run2 := run + [Act(cfg, Newest(run), a)];
    forall i | 0 < i < |run2| ensures Next(cfg, run2[i - 1], run2[i]) {
      if i < |run| { assert Next(cfg, run[i - 1], run[i]); }
    }
    RunKeeps(cfg, run2, |run2| - 1);
  }

  lemma OneWrite(cfg: Cfg, run: seq<System>, w: WStep) returns (run2: seq<System>)
    requires Run(cfg, run) && CanStep(cfg, Newest(run).shared, w)
    ensures Run(cfg, run2) && run <= run2
    ensures Newest(run2).shared == Step(cfg, Newest(run).shared, w) && Newest(run2).readers == Newest(run).readers
    ensures Inv(cfg, Newest(run2).shared)
  {
    run2 := OneStep(cfg, run, Write(w));
  }

  /** A run goes on by writer steps alone. */
  ghost predicate Continues(cfg: Cfg, run: seq<System>, run2: seq<System>) {
    && Run(cfg, run) && Run(cfg, run2) && run <= run2
    && Newest(run2).readers == Newest(run).readers
    && Inv(cfg, Newest(run2).shared)
  }

  /** The start of a Store, up to its odd sequence word. */
  lemma BeginStore(cfg: Cfg, run: seq<System>, value: seq<nat>) returns (run2: seq<System>)
    requires Run(cfg, run) && Inv(cfg, Newest(run).shared) && Newest(run).shared.pc.Idle? && |value| == cfg.W
    ensures Continues(cfg, run, run2) && Newest(run2).shared.pc.Odd?
    ensures Newest(run2).shared.pub == Newest(run).shared.pub
    ensures |Newest(run2).shared.pc.value| == cfg.W
  {
    var s := Newest(run).shared;
    LastIsCurrent(cfg, s, Cursor);
    var run1 := OneWrite(cfg, run, Begin(value, |s.mem(Cursor)| - 1));
    var s1 := Newest(run1).shared;
    var x := Seq(s1.pc.idx % cfg.N);
    LastIsCurrent(cfg, s1, x);
    var run1' := OneWrite(cfg, run1, LoadSeq(|s1.mem(x)| - 1));
    run2 := OneWrite(cfg, run1', StoreOdd);
  }

  lemma {:induction false} StoreWords(cfg: Cfg, run: seq<System>) returns (run2: seq<System>)
    requires Run(cfg, run) && Inv(cfg, Newest(run).shared) && Newest(run).shared.pc.Words?
    requires |Newest(run).shared.pc.value| == cfg.W
    ensures Continues(cfg, run, run2) && Newest(run2).shared.pc.Even?
    ensures Newest(run2).shared.pub == Newest(run).shared.pub
    decreases cfg.W - Newest(run).shared.pc.i
  {
    if Newest(run).shared.pc.i == cfg.W {
      run2 := OneWrite(cfg, run, StoreEven);
    } else {
      var run1 := OneWrite(cfg, run, StoreWord);
      run2 := StoreWords(cfg, run1);
    }
  }

  lemma OneStore(cfg: Cfg, run: seq<System>) returns (run2: seq<System>)
    requires Run(cfg, run) && Inv(cfg, Newest(run).shared) && Newest(run).shared.pc.Idle?
    ensures Continues(cfg, run, run2) && Newest(run2).shared.pc.Idle?
    ensures |Newest(run2).shared.pub| == |Newest(run).shared.pub| + 1
  {
    var begun := BeginStore(cfg, run, Zeros(cfg.W));
    var fenced := OneWrite(cfg, begun, ReleaseFence);
    var indexed := OneWrite(cfg, fenced, StoreIndex);
    var even := StoreWords(cfg, indexed);
    run2 := OneWrite(cfg, even, StoreCursor);
  }

  lemma {:induction false} Stores(cfg: Cfg, run: seq<System>, n: nat) returns (run2: seq<System>)
    requires Run(cfg, run) && Inv(cfg, Newest(run).shared) && Newest(run).shared.pc.Idle?
    ensures Continues(cfg, run, run2) && Newest(run2).shared.pc.Idle?
    ensures |Newest(run2).shared.pub| == |Newest(run).shared.pub| + n
    decreases n
  {
    if n == 0 {
      run2 := run;
    } else {
      var run1 := OneStore(cfg, run);
      run2 := Stores(cfg, run1, n - 1);
    }
  }

  /** The reader captures cursor 1 while it is the newest. */
  lemma CaptureFirst(cfg: Cfg) returns (run: seq<System>)
    requires cfg.Valid()
    ensures Run(cfg, run) && SystemInv(cfg, Newest(run)) && Newest(run).shared.pc.Idle? && |Newest(run).shared.pub| == 1
    ensures var r := Newest(run).readers(0); r.pc == AtSeq(1, 0) && r.verb == Load
  {
    var start := [InitSystem(cfg)];
    RunKeeps(cfg, start, 0);
    var stored := OneStore(cfg, start);
    var called := OneStep(cfg, stored, ReadBy(0, Call(Load)));
    var s := Newest(called).shared;
    LastIsCurrent(cfg, s, Cursor);
    run := OneStep(cfg, called, ReadBy(0, LoadCursor(1)));
  }

  /** A reader about to load the first cell's sequence word, while a store on that cell has begun, can find it odd. */
  lemma RetryOfFirst(cfg: Cfg, s: Shared, r: Reader) returns (a: RStep)
    requires Inv(cfg, s) && RInv(cfg, s, r) && r.pc == AtSeq(1, 0) && r.verb == Load
    requires s.pc.Odd? && s.pc.idx == cfg.N
    ensures CanRead(cfg, s.mem, r, a) && Read(cfg, s.mem, r, a).attempt == r.attempt + 1
  {
    assert cfg.N % cfg.N == 0;
    LastIsCurrent(cfg, s, Seq(0));
    assert r.th.cur(Seq(0)) < |s.mem(Seq(0))|;
    a := LoadSeq1(|s.mem(Seq(0))| - 1);
    assert CellSeq(cfg, 1, 0) == Seq(0);
    assert Last(s.mem(Seq(0))).x % 2 == 1;
  }

  /**
   For every depth there is a run in which a Load retries after exactly N - 1 publications since it captured its
   cursor, which was then the newest: the next store has only begun.
   */
  lemma RetryAfterNMinusOne(cfg: Cfg) returns (run: seq<System>, capture: nat, a: RStep)
    requires cfg.Valid()
    ensures Run(cfg, run) && capture < |run|
    ensures var (y, r) := (run[capture], run[|run| - 1].readers(0));
            && r.pc.AtSeq? && r.verb == Load && y.readers(0) == r && r.pc.c == |y.shared.pub|
            && |run[|run| - 1].shared.pub| == |y.shared.pub| + cfg.N - 1
    ensures CanRead(cfg, run[|run| - 1].shared.mem, run[|run| - 1].readers(0), a)
    ensures Read(cfg, run[|run| - 1].shared.mem, run[|run| - 1].readers(0), a).attempt
         == run[|run| - 1].readers(0).attempt + 1
  {
    var captured := CaptureFirst(cfg);
    capture := |captured| - 1;
    var stored := Stores(cfg, captured, cfg.N - 1);
    run := BeginStore(cfg, stored, Zeros(cfg.W));
    assert run[capture] == Newest(captured);
    RunKeeps(cfg, run, |run| - 1);
    a := RetryOfFirst(cfg, Newest(run).shared, Newest(run).readers(0));
  }
}
