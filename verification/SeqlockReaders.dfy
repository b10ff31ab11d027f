/**
 The readers of the seqlock ring: Load, LoadBounded and Snapshot, one step per atomic load or fence, run by any
 number of threads against the writer of SeqlockWeak. A load may return any message the thread's view allows.
 */
module SeqlockReaders {
  import opened WeakMemory
  import opened SeqlockWeak
  import opened Laps

  datatype Verb = Load | LoadBounded(maxRetries: nat) | Snapshot(k: nat)

  /** c: captured cursor; i: walk entry (0 for the read-latest verbs); s1, t1: first sequence word and its message. */
  datatype RPc =
    | Resting
    | AtCursor
    | AtSeq(c: nat, i: nat)
    | AtIndex(c: nat, i: nat, s1: nat, t1: nat)
    | AtWords(c: nat, i: nat, s1: nat, t1: nat, idx: Val, words: seq<Val>)
    | AtReload(c: nat, i: nat, s1: nat, t1: nat, idx: Val, words: seq<Val>)

  /**
   c: the captured cursor. k: how many entries the caller asked for. clean: no repair fell between the two sequence
   loads of a copy that validated.
   */
  datatype Outcome =
    | NoCall
    | Empty(c: nat)
    | Stalled(c: nat)
    | Value(c: nat, value: seq<nat>, clean: bool)
    | Taken(c: nat, k: nat, limit: nat, out: seq<seq<nat>>, clean: bool)

  /** positions: write positions returned by the reader's completed read-latest calls, oldest first. */
  datatype Reader = Reader(th: Thread<Loc>, pc: RPc, verb: Verb, attempt: nat, out: seq<seq<nat>>, clean: bool,
                           outcome: Outcome, positions: seq<nat>)

  datatype RStep =
    | Call(verb: Verb)
    | LoadCursor(t: nat)
    | LoadSeq1(t: nat)
    | LoadIndex(t: nat)
    | LoadWord(t: nat)
    | AcquireFence
    | LoadSeq2(t: nat)

  function InitReader(): Reader {
    Reader(Start(), Resting, Load, 0, [], true, NoCall, [])
  }

  function Min(a: nat, b: nat): nat { if a < b then a else b }

  /** How many entries the call may take once it captured cursor c. */
  function Limit(cfg: Cfg, verb: Verb, c: nat): nat {
    match verb
    case Snapshot(k) => Min(Min(k, c), cfg.N)
    case _ => Min(1, c)
  }

  function Values(words: seq<Val>): (v: seq<nat>)
    ensures |v| == |words| && forall i | 0 <= i < |v| :: v[i] == words[i].x
  {
    seq(|words|, i requires 0 <= i < |words| => words[i].x)
  }

  // A copy in progress concerns walk position c - 1 - i.
  predicate CanSeq1(cfg: Cfg, mem: Mem, r: Reader, t: nat) {
    cfg.Valid() && r.pc.AtSeq? && r.pc.i < r.pc.c && CanLoad(mem, r.th, CellSeq(cfg, r.pc.c, r.pc.i), t)
  }

  predicate CanIndex(cfg: Cfg, mem: Mem, r: Reader, t: nat) {
    && cfg.Valid() && r.pc.AtIndex? && r.pc.i < r.pc.c
    && CanLoad(mem, r.th, Index((r.pc.c - 1 - r.pc.i) % cfg.N), t)
  }

  predicate CanWord(cfg: Cfg, mem: Mem, r: Reader, t: nat) {
    && cfg.Valid() && r.pc.AtWords? && r.pc.i < r.pc.c && |r.pc.words| < cfg.W
    && CanLoad(mem, r.th, Word((r.pc.c - 1 - r.pc.i) % cfg.N, |r.pc.words|), t)
  }

  predicate CanSeq2(cfg: Cfg, mem: Mem, r: Reader, t: nat) {
    cfg.Valid() && r.pc.AtReload? && r.pc.i < r.pc.c && CanLoad(mem, r.th, CellSeq(cfg, r.pc.c, r.pc.i), t)
  }

  predicate CanRead(cfg: Cfg, mem: Mem, r: Reader, a: RStep) {
    cfg.Valid() &&
    match a
    case Call(_) => r.pc.Resting?
    case LoadCursor(t) => r.pc.AtCursor? && CanLoad(mem, r.th, Cursor, t)
    case LoadSeq1(t) => CanSeq1(cfg, mem, r, t)
    case LoadIndex(t) => CanIndex(cfg, mem, r, t)
    case LoadWord(t) => CanWord(cfg, mem, r, t)
    case AcquireFence => r.pc.AtWords? && |r.pc.words| == cfg.W
    case LoadSeq2(t) => CanSeq2(cfg, mem, r, t)
  }

  function CellSeq(cfg: Cfg, c: nat, i: nat): Loc
    requires cfg.Valid() && i < c
  {
    Seq((c - 1 - i) % cfg.N)
  }

  /** A sequence word that does not admit a copy, or a copy that did not validate. */
  function Fail(cfg: Cfg, r: Reader, c: nat): Reader {
    match r.verb
    case Load => r.(pc := AtCursor, attempt := r.attempt + 1)
    case LoadBounded(max) =>
      if r.attempt < max then r.(pc := AtCursor, attempt := r.attempt + 1)
      else r.(pc := Resting, outcome := Stalled(c))
    case Snapshot(k) => r.(pc := Resting, outcome := Taken(c, k, Limit(cfg, r.verb, c), r.out, r.clean))
  }

  function Succeed(cfg: Cfg, r: Reader, c: nat, i: nat, value: seq<nat>): Reader
    requires i < c
  {
    if r.verb.Snapshot? then
      var out := r.out + [value];
      if i + 1 < Limit(cfg, r.verb, c) then r.(out := out, pc := AtSeq(c, i + 1))
      else r.(out := out, pc := Resting, outcome := Taken(c, r.verb.k, Limit(cfg, r.verb, c), out, r.clean))
    else
      r.(pc := Resting, outcome := Value(c, value, r.clean), positions := r.positions + [c - 1])
  }

  function Seq1(cfg: Cfg, mem: Mem, r: Reader, t: nat): Reader
    requires CanSeq1(cfg, mem, r, t)
  {
    var x := CellSeq(cfg, r.pc.c, r.pc.i);
    var s1 := mem(x)[t].val.x;
    var r2 := r.(th := LoadAcquire(mem, r.th, x, t));
    if s1 == 0 && !r.verb.Snapshot? then r2.(pc := Resting, outcome := Empty(r.pc.c))
    else if s1 == 0 || s1 % 2 == 1 then Fail(cfg, r2, r.pc.c)
    else r2.(pc := AtIndex(r.pc.c, r.pc.i, s1, t))
  }

  function CopyIndex(cfg: Cfg, mem: Mem, r: Reader, t: nat): Reader
    requires CanIndex(cfg, mem, r, t)
  {
    var x := Index((r.pc.c - 1 - r.pc.i) % cfg.N);
    r.(th := LoadRelaxed(mem, r.th, x, t),
    pc := AtWords(r.pc.c, r.pc.i, r.pc.s1, r.pc.t1, mem(x)[t].val, []))
  }

  function CopyWord(cfg: Cfg, mem: Mem, r: Reader, t: nat): Reader
    requires CanWord(cfg, mem, r, t)
  {
    var x := Word((r.pc.c - 1 - r.pc.i) % cfg.N, |r.pc.words|);
    r.(th := LoadRelaxed(mem, r.th, x, t),
    pc := AtWords(r.pc.c, r.pc.i, r.pc.s1, r.pc.t1, r.pc.idx, r.pc.words + [mem(x)[t].val]))
  }

  ghost function Seq2(cfg: Cfg, mem: Mem, r: Reader, t: nat): Reader
    requires CanSeq2(cfg, mem, r, t)
  {
    var x := CellSeq(cfg, r.pc.c, r.pc.i);
    var r2 := r.(th := LoadRelaxed(mem, r.th, x, t));
    if mem(x)[t].val.x == r.pc.s1 && r.pc.idx.x == r.pc.c - 1 - r.pc.i then
      var clean := r.clean && NoRepair(mem(x), r.pc.t1, t);
      Succeed(cfg, r2.(clean := clean), r.pc.c, r.pc.i, Values(r.pc.words))
    else Fail(cfg, r2, r.pc.c)
  }

  ghost function Read(cfg: Cfg, mem: Mem, r: Reader, a: RStep): Reader
    requires CanRead(cfg, mem, r, a)
  {
    match a
    case Call(verb) => r.(pc := AtCursor, verb := verb, attempt := 0, out := [], clean := true)
    case LoadCursor(t) =>
      var c := mem(Cursor)[t].val.x;
      var r2 := r.(th := LoadAcquire(mem, r.th, Cursor, t));
      if Limit(cfg, r.verb, c) > 0 then r2.(pc := AtSeq(c, 0))
      else r2.(pc := Resting, outcome := if r.verb.Snapshot? then Taken(c, r.verb.k, 0, [], true) else Empty(c))
    case LoadSeq1(t) => Seq1(cfg, mem, r, t)
    case LoadIndex(t) => CopyIndex(cfg, mem, r, t)
    case LoadWord(t) => CopyWord(cfg, mem, r, t)
    case AcquireFence =>
      r.(th := FenceAcquire(r.th), pc := AtReload(r.pc.c, r.pc.i, r.pc.s1, r.pc.t1, r.pc.idx, r.pc.words))
    case LoadSeq2(t) => Seq2(cfg, mem, r, t)
  }

  // ---- what a reader knows ----

  /** The value published at position p. */
  ghost function Published(s: Shared, p: nat): seq<nat>
    requires p < |s.pub| && s.pub[p] < |s.log|
  {
    s.log[s.pub[p]].value
  }

  /** out lists the published values of positions c-1, c-2, ... */
  ghost predicate NewestFirst(s: Shared, c: nat, out: seq<seq<nat>>) {
    |out| <= c <= |s.pub| &&
    forall j | 0 <= j < |out| :: s.pub[c - 1 - j] < |s.log| && out[j] == Published(s, c - 1 - j)
  }

  ghost predicate ThreadInv(mem: Mem, th: Thread<Loc>) {
    forall l {:trigger th.cur(l)} {:trigger th.acq(l)} :: th.cur(l) <= th.acq(l) < |mem(l)|
  }

  /** The first sequence load hit message t1 of the cell of position p: an even word at or after p's closing word. */
  ghost predicate Anchored(cfg: Cfg, s: Shared, th: Thread<Loc>, p: nat, s1: nat, t1: nat)
    requires cfg.Valid()
  {
    var n := p % cfg.N;
    var h := s.mem(Seq(n));
    && p < |s.pub| && Closed(h, t1, s.pub[p])
    && h[t1].val.x == s1 && s1 % 2 == 0 && s1 != 0
    && t1 <= th.cur(Seq(n))
    && Tag(s.mem(Index(n)), th.cur(Index(n))) >= h[t1].val.att
    && forall i | 0 <= i < cfg.W :: Tag(s.mem(Word(n, i)), th.cur(Word(n, i))) >= h[t1].val.att
  }

  /** v was stored by an attempt no older than message t1's; view u of the sequence word covers that attempt. */
  ghost predicate CopiedIndex(s: Shared, n: nat, t1: nat, u: nat, v: Val) {
    && v.att >= Tag(s.mem(Seq(n)), t1) && v.att < |s.log| && v.x == s.log[v.att].idx
    && Tag(s.mem(Seq(n)), u) >= v.att
  }

  ghost predicate CopiedWord(s: Shared, n: nat, t1: nat, u: nat, i: nat, v: Val) {
    && v.att >= Tag(s.mem(Seq(n)), t1) && v.att < |s.log|
    && i < |s.log[v.att].value| && v.x == s.log[v.att].value[i]
    && Tag(s.mem(Seq(n)), u) >= v.att
  }

  ghost predicate Copied(cfg: Cfg, s: Shared, p: nat, t1: nat, u: nat, idx: Val, words: seq<Val>)
    requires cfg.Valid()
  {
    && CopiedIndex(s, p % cfg.N, t1, u, idx) && OfCell(cfg, s.log, p % cfg.N, idx.att)
    && |words| <= cfg.W
    && forall i | 0 <= i < |words| :: CopiedWord(s, p % cfg.N, t1, u, i, words[i])
  }

  ghost predicate Walking(cfg: Cfg, s: Shared, r: Reader, c: nat, i: nat)
    requires cfg.Valid()
  {
    && SeesPublished(cfg, s.mem, s.pub, r.th.cur, c)
    && c <= r.th.cur(Cursor) && (forall j | 0 <= j < |r.positions| :: r.positions[j] < c)
    && i < Limit(cfg, r.verb, c) && |r.out| == i
    && (r.clean ==> NewestFirst(s, c, r.out))
  }

  ghost predicate RPcInv(cfg: Cfg, s: Shared, r: Reader)
    requires cfg.Valid()
  {
    match r.pc
    case Resting => true
    case AtCursor => r.out == []
    case AtSeq(c, i) => Walking(cfg, s, r, c, i)
    case AtIndex(c, i, s1, t1) =>
      Walking(cfg, s, r, c, i) && Anchored(cfg, s, r.th, c - 1 - i, s1, t1)
    case AtWords(c, i, s1, t1, idx, words) =>
      && Walking(cfg, s, r, c, i) && Anchored(cfg, s, r.th, c - 1 - i, s1, t1)
      && Copied(cfg, s, c - 1 - i, t1, r.th.acq(Seq((c - 1 - i) % cfg.N)), idx, words)
    case AtReload(c, i, s1, t1, idx, words) =>
      && Walking(cfg, s, r, c, i) && Anchored(cfg, s, r.th, c - 1 - i, s1, t1) && |words| == cfg.W
      && Copied(cfg, s, c - 1 - i, t1, r.th.cur(Seq((c - 1 - i) % cfg.N)), idx, words)
  }

  /** Attempt k is a later store on the cell of the published position p. */
  ghost predicate Overtakes(cfg: Cfg, s: Shared, p: nat, k: nat)
    requires cfg.Valid()
  {
    && p < |s.pub| && s.pub[p] < k < |s.log|
    && s.log[k].idx % cfg.N == p % cfg.N && p + cfg.N <= s.log[k].idx
  }

  /** The writer has begun to store a position that takes over the cell of the published position p. */
  ghost predicate Overtaken(cfg: Cfg, s: Shared, p: nat)
    requires cfg.Valid()
  {
    exists k: nat :: Overtakes(cfg, s, p, k)
  }

  /** A completed call's result against the published history. */
  ghost predicate OutcomeOk(cfg: Cfg, s: Shared, o: Outcome)
    requires cfg.Valid()
  {
    match o
    case Value(c, value, clean) => 1 <= c <= |s.pub| && (clean ==> NewestFirst(s, c, [value]))
    case Taken(c, k, limit, out, clean) =>
      && c <= |s.pub| && limit == Min(Min(k, c), cfg.N) && |out| <= limit
      && (clean ==> NewestFirst(s, c, out))
      && (|out| < limit ==> Overtaken(cfg, s, c - 1 - |out|))
    case Empty(c) => c > 0 ==> Overtaken(cfg, s, c - 1)
    case Stalled(c) => c > 0 && Overtaken(cfg, s, c - 1)
    case NoCall => true
  }

  ghost predicate RInv(cfg: Cfg, s: Shared, r: Reader)
    requires cfg.Valid()
  {
    && ThreadInv(s.mem, r.th)
    && RPcInv(cfg, s, r)
    && OutcomeOk(cfg, s, r.outcome)
    && (r.outcome.Value? ==> |r.positions| > 0 && r.positions[|r.positions| - 1] == r.outcome.c - 1)
    && (forall j | 0 <= j < |r.positions| :: r.positions[j] < r.th.cur(Cursor))
    && (forall j, k | 0 <= j < k < |r.positions| :: r.positions[j] <= r.positions[k])
  }

  // ---- what a reader knows survives the writer's steps ----

  ghost predicate Later(s: Shared, s2: Shared) {
    Grows(s.mem, s2.mem) && s.log <= s2.log && s.pub <= s2.pub
  }

  lemma WalkingStable(cfg: Cfg, s: Shared, s2: Shared, r: Reader, c: nat, i: nat)
    requires cfg.Valid() && Later(s, s2) && Walking(cfg, s, r, c, i)
    ensures Walking(cfg, s2, r, c, i)
  {
  }

  lemma AnchoredStable(cfg: Cfg, s: Shared, s2: Shared, th: Thread<Loc>, p: nat, s1: nat, t1: nat)
    requires cfg.Valid() && Later(s, s2) && Anchored(cfg, s, th, p, s1, t1)
    ensures Anchored(cfg, s2, th, p, s1, t1) && t1 < |s.mem(Seq(p % cfg.N))|
  {
  }

  lemma CopiedStable(cfg: Cfg, s: Shared, s2: Shared, p: nat, t1: nat, u: nat, idx: Val, words: seq<Val>)
    requires cfg.Valid() && Later(s, s2) && Copied(cfg, s, p, t1, u, idx, words) && t1 < |s.mem(Seq(p % cfg.N))|
    ensures Copied(cfg, s2, p, t1, u, idx, words)
  {
  }

  lemma CopyPcStable(cfg: Cfg, s: Shared, s2: Shared, r: Reader)
    requires cfg.Valid() && RPcInv(cfg, s, r) && Later(s, s2) && (r.pc.AtWords? || r.pc.AtReload?)
    ensures RPcInv(cfg, s2, r)
  {
    var c, i, t1 := r.pc.c, r.pc.i, r.pc.t1;
    var x := Seq((c - 1 - i) % cfg.N);
    WalkingStable(cfg, s, s2, r, c, i);
    AnchoredStable(cfg, s, s2, r.th, c - 1 - i, r.pc.s1, t1);
    CopiedStable(cfg, s, s2, c - 1 - i, t1, if r.pc.AtWords? then r.th.acq(x) else r.th.cur(x), r.pc.idx, r.pc.words);
  }

  lemma PcStable(cfg: Cfg, s: Shared, s2: Shared, r: Reader)
    requires cfg.Valid() && RPcInv(cfg, s, r) && Later(s, s2)
    ensures RPcInv(cfg, s2, r)
  {
    match r.pc
    case Resting =>
    case AtCursor =>
    case AtSeq(c, i) =>
      WalkingStable(cfg, s, s2, r, c, i);
    case AtIndex(c, i, s1, t1) =>
      WalkingStable(cfg, s, s2, r, c, i);
      AnchoredStable(cfg, s, s2, r.th, c - 1 - i, s1, t1);
    case _ => CopyPcStable(cfg, s, s2, r);
  }

  lemma OvertakenStable(cfg: Cfg, s: Shared, s2: Shared, p: nat)
    requires cfg.Valid() && Later(s, s2) && Overtaken(cfg, s, p)
    ensures Overtaken(cfg, s2, p)
  {
    var k: nat :| Overtakes(cfg, s, p, k);
    assert Overtakes(cfg, s2, p, k);
  }

  lemma TakenStable(cfg: Cfg, s: Shared, s2: Shared, c: nat, k: nat, limit: nat, out: seq<seq<nat>>, clean: bool)
    requires cfg.Valid() && OutcomeOk(cfg, s, Taken(c, k, limit, out, clean)) && Later(s, s2)
    ensures OutcomeOk(cfg, s2, Taken(c, k, limit, out, clean))
  {
    if |out| < limit { OvertakenStable(cfg, s, s2, c - 1 - |out|); }
    if clean { NewestFirstStable(s, s2, c, out); }
  }

  lemma NewestFirstStable(s: Shared, s2: Shared, c: nat, out: seq<seq<nat>>)
    requires NewestFirst(s, c, out) && Later(s, s2)
    ensures NewestFirst(s2, c, out)
  {
  }

  lemma OutcomeStable(cfg: Cfg, s: Shared, s2: Shared, o: Outcome)
    requires cfg.Valid() && OutcomeOk(cfg, s, o) && Later(s, s2)
    ensures OutcomeOk(cfg, s2, o)
  {
    match o
    case Taken(c, k, limit, out, clean) => TakenStable(cfg, s, s2, c, k, limit, out, clean);
    case Empty(c) => if c > 0 { OvertakenStable(cfg, s, s2, c - 1); }
    case Stalled(c) => OvertakenStable(cfg, s, s2, c - 1);
    case Value(c, value, clean) => if clean { NewestFirstStable(s, s2, c, [value]); }
    case NoCall =>
  }

  lemma ReaderStable(cfg: Cfg, s: Shared, s2: Shared, r: Reader)
    requires cfg.Valid() && RInv(cfg, s, r) && Later(s, s2)
    ensures RInv(cfg, s2, r)
  {
    PcStable(cfg, s, s2, r);
    OutcomeStable(cfg, s, s2, r.outcome);
    forall l ensures r.th.cur(l) <= r.th.acq(l) < |s2.mem(l)| { assert s.mem(l) <= s2.mem(l); }
  }

  // ---- every reader step keeps what it knows ----

  /** (R0): after an acquire load of cursor message t, the view includes every position below t. */
  lemma AcquireCursor(cfg: Cfg, s: Shared, th: Thread<Loc>, t: nat, th2: Thread<Loc>)
    requires Inv(cfg, s) && ThreadInv(s.mem, th) && CanLoad(s.mem, th, Cursor, t)
    requires th2 == LoadAcquire(s.mem, th, Cursor, t)
    ensures s.mem(Cursor)[t].val.x == t <= |s.pub| && th2.cur(Cursor) >= t
    ensures ThreadInv(s.mem, th2) && SeesPublished(cfg, s.mem, s.pub, th2.cur, t)
  {
    LastIsCurrent(cfg, s, Cursor);
    var m := s.mem(Cursor)[t];
    assert MsgOk(cfg, s.mem, s.log, s.pub, Cursor, m);
    assert ThreadInv(s.mem, th2);
    forall p | 0 <= p < t ensures Closed(s.mem(Seq(p % cfg.N)), th2.cur(Seq(p % cfg.N)), s.pub[p]) {
      var x := Seq(p % cfg.N);
      assert HistoryOk(x, s.mem(x));
      ClosedStays(s.mem(x), m.view(x), th2.cur(x), s.pub[p]);
    }
  }

  lemma LoadCursorKeeps(cfg: Cfg, s: Shared, r: Reader, t: nat)
    requires Inv(cfg, s) && RInv(cfg, s, r) && CanRead(cfg, s.mem, r, LoadCursor(t))
    ensures RInv(cfg, s, Read(cfg, s.mem, r, LoadCursor(t)))
  {
    AcquireCursor(cfg, s, r.th, t, LoadAcquire(s.mem, r.th, Cursor, t));
  }

  /** An attempt on the cell of the published position p, later than the one that published it, is a whole lap later. */
  lemma LaterAttemptLaps(cfg: Cfg, s: Shared, p: nat, k: nat)
    requires Inv(cfg, s) && p < |s.pub| && s.pub[p] < k && OfCell(cfg, s.log, p % cfg.N, k)
    ensures Overtakes(cfg, s, p, k) && s.log[k].idx <= |s.pub|
  {
    SameCellApart(cfg.N, p, s.log[k].idx);
  }

  /** A sequence word other than the closing word of position p proves that the writer came round again. */
  lemma NotClosingMeansLap(cfg: Cfg, s: Shared, p: nat, u: nat)
    requires Inv(cfg, s) && p < |s.pub|
    requires u < |s.mem(Seq(p % cfg.N))| && s.mem(Seq(p % cfg.N))[u].val.att > s.pub[p]
    ensures Overtaken(cfg, s, p)
  {
    var m := s.mem(Seq(p % cfg.N))[u];
    assert MsgOk(cfg, s.mem, s.log, s.pub, Seq(p % cfg.N), m);
    LaterAttemptLaps(cfg, s, p, m.val.att);
  }

  /** What an overtaken position means in publications. */
  lemma OvertakenMeans(cfg: Cfg, s: Shared, p: nat)
    requires Inv(cfg, s) && Overtaken(cfg, s, p)
    ensures p + cfg.N <= |s.pub|
    ensures p + cfg.N < |s.pub| || Begun(cfg, s, p + cfg.N)
  {
    var k: nat :| Overtakes(cfg, s, p, k);
    if s.log[k].idx == p + cfg.N && |s.pub| == p + cfg.N {
      assert s.log[k].idx == |s.pub|;
    }
  }

  /** A store of position q has begun. */
  ghost predicate Begun(cfg: Cfg, s: Shared, q: nat) {
    exists k: nat :: 1 <= k < |s.log| && s.log[k].idx == q
  }

  lemma CallKeeps(cfg: Cfg, s: Shared, r: Reader, verb: Verb)
    requires Inv(cfg, s) && RInv(cfg, s, r) && CanRead(cfg, s.mem, r, Call(verb))
    ensures RInv(cfg, s, Read(cfg, s.mem, r, Call(verb)))
  {
  }

  /** A failed attempt: the writer has overtaken the position that was to be copied. */
  lemma FailKeeps(cfg: Cfg, s: Shared, r: Reader, rested: Reader, c: nat, i: nat)
    requires cfg.Valid() && RInv(cfg, s, rested) && Walking(cfg, s, rested, c, i) && rested == r.(pc := Resting)
    requires Overtaken(cfg, s, c - 1 - i)
    ensures RInv(cfg, s, Fail(cfg, r, c))
  {
  }

  /** (R1): after an acquire load of a closing word, no older index or word can be read. */
  lemma AcquireAnchors(cfg: Cfg, s: Shared, th: Thread<Loc>, p: nat, t: nat)
    requires Inv(cfg, s) && p < |s.pub| && t < |s.mem(Seq(p % cfg.N))|
    requires Closed(s.mem(Seq(p % cfg.N)), t, s.pub[p])
    requires var m := s.mem(Seq(p % cfg.N))[t];
             m.val.x % 2 == 0 && m.val.x != 0 && t <= th.cur(Seq(p % cfg.N)) &&
             forall l :: m.view(l) <= th.cur(l) < |s.mem(l)|
    ensures Anchored(cfg, s, th, p, s.mem(Seq(p % cfg.N))[t].val.x, t)
  {
    var n := p % cfg.N;
    var m := s.mem(Seq(n))[t];
    assert MsgOk(cfg, s.mem, s.log, s.pub, Seq(n), m);
    TagGrows(cfg, s, Index(n), m.view(Index(n)), th.cur(Index(n)));
    forall j | 0 <= j < cfg.W ensures Tag(s.mem(Word(n, j)), th.cur(Word(n, j))) >= m.val.att {
      TagGrows(cfg, s, Word(n, j), m.view(Word(n, j)), th.cur(Word(n, j)));
    }
  }

  lemma LoadSeq1Keeps(cfg: Cfg, s: Shared, r: Reader, r2: Reader, c: nat, i: nat, t: nat)
    requires Inv(cfg, s) && RInv(cfg, s, r) && r.pc == AtSeq(c, i) && i < c
    requires CanLoad(s.mem, r.th, CellSeq(cfg, c, i), t)
    requires r2 == r.(th := LoadAcquire(s.mem, r.th, CellSeq(cfg, c, i), t), pc := Resting)
    ensures RInv(cfg, s, r2) && Walking(cfg, s, r2, c, i)
    ensures var s1 := s.mem(CellSeq(cfg, c, i))[t].val.x;
            if s1 == 0 || s1 % 2 == 1 then Overtaken(cfg, s, c - 1 - i)
            else Anchored(cfg, s, r2.th, c - 1 - i, s1, t)
  {
    var x := CellSeq(cfg, c, i);
    var p := c - 1 - i;
    var m := s.mem(x)[t];
    assert ThreadInv(s.mem, r2.th);
    SeesMore(cfg, s, r.th, r2.th, c);
    assert Closed(s.mem(x), t, s.pub[p]) by {
      assert HistoryOk(x, s.mem(x));
      ClosedStays(s.mem(x), r.th.cur(x), t, s.pub[p]);
    }
    if m.val.x == 0 || m.val.x % 2 == 1 {
      NotClosingMeansLap(cfg, s, p, t);
    } else {
      AcquireAnchors(cfg, s, r2.th, p, t);
    }
  }

  lemma TagGrows(cfg: Cfg, s: Shared, x: Loc, t: nat, u: nat)
    requires Inv(cfg, s) && x != Cursor && t <= u < |s.mem(x)|
    ensures Tag(s.mem(x), t) <= Tag(s.mem(x), u)
  {
    assert HistoryOk(x, s.mem(x));
    if x.Seq? { SeqTagsAscend(s.mem(x), t, u); }
  }

  /** A view that only grew still includes the published positions. */
  lemma SeesMore(cfg: Cfg, s: Shared, th: Thread<Loc>, th2: Thread<Loc>, c: nat)
    requires Inv(cfg, s) && SeesPublished(cfg, s.mem, s.pub, th.cur, c)
    requires forall l :: th.cur(l) <= th2.cur(l) < |s.mem(l)|
    ensures SeesPublished(cfg, s.mem, s.pub, th2.cur, c)
  {
    forall p | 0 <= p < c ensures Closed(s.mem(Seq(p % cfg.N)), th2.cur(Seq(p % cfg.N)), s.pub[p]) {
      var x := Seq(p % cfg.N);
      assert HistoryOk(x, s.mem(x));
      ClosedStays(s.mem(x), th.cur(x), th2.cur(x), s.pub[p]);
    }
  }

  lemma AnchoredMore(cfg: Cfg, s: Shared, th: Thread<Loc>, th2: Thread<Loc>, p: nat, s1: nat, t1: nat)
    requires Inv(cfg, s) && Anchored(cfg, s, th, p, s1, t1)
    requires forall l :: th.cur(l) <= th2.cur(l) < |s.mem(l)|
    ensures Anchored(cfg, s, th2, p, s1, t1)
  {
    var n := p % cfg.N;
    TagGrows(cfg, s, Index(n), th.cur(Index(n)), th2.cur(Index(n)));
    forall j | 0 <= j < cfg.W
      ensures Tag(s.mem(Word(n, j)), th2.cur(Word(n, j))) >= s.mem(Seq(n))[t1].val.att
    {
      TagGrows(cfg, s, Word(n, j), th.cur(Word(n, j)), th2.cur(Word(n, j)));
    }
  }

  lemma CopiedMore(cfg: Cfg, s: Shared, p: nat, t1: nat, u: nat, u2: nat, idx: Val, words: seq<Val>)
    requires Inv(cfg, s) && Copied(cfg, s, p, t1, u, idx, words) && u <= u2 < |s.mem(Seq(p % cfg.N))|
    ensures Copied(cfg, s, p, t1, u2, idx, words)
  {
    TagGrows(cfg, s, Seq(p % cfg.N), u, u2);
  }

  lemma LoadIndexKeeps(cfg: Cfg, s: Shared, r: Reader, c: nat, p: nat, t: nat, th2: Thread<Loc>)
    requires Inv(cfg, s) && RInv(cfg, s, r) && r.pc.AtIndex? && c == r.pc.c && p == c - 1 - r.pc.i
    requires CanLoad(s.mem, r.th, Index(p % cfg.N), t) && th2 == LoadRelaxed(s.mem, r.th, Index(p % cfg.N), t)
    ensures ThreadInv(s.mem, th2) && SeesPublished(cfg, s.mem, s.pub, th2.cur, c)
    ensures Anchored(cfg, s, th2, p, r.pc.s1, r.pc.t1)
    ensures Copied(cfg, s, p, r.pc.t1, th2.acq(Seq(p % cfg.N)), s.mem(Index(p % cfg.N))[t].val, [])
  {
    var x := Index(p % cfg.N);
    var m := s.mem(x)[t];
    assert MsgOk(cfg, s.mem, s.log, s.pub, x, m);
    assert ThreadInv(s.mem, th2);
    SeesMore(cfg, s, r.th, th2, c);
    AnchoredMore(cfg, s, r.th, th2, p, r.pc.s1, r.pc.t1);
    TagGrows(cfg, s, x, r.th.cur(x), t);
    TagGrows(cfg, s, Seq(p % cfg.N), m.view(Seq(p % cfg.N)), th2.acq(Seq(p % cfg.N)));
  }

  /** (W1): once a word of attempt k is read, the acquire view covers the odd word of attempt k. */
  lemma WordCopied(cfg: Cfg, s: Shared, p: nat, s1: nat, t1: nat, th: Thread<Loc>, j: nat, t: nat, u: nat)
    requires Inv(cfg, s) && Anchored(cfg, s, th, p, s1, t1) && j < cfg.W
    requires th.cur(Word(p % cfg.N, j)) <= t < |s.mem(Word(p % cfg.N, j))|
    requires s.mem(Word(p % cfg.N, j))[t].view(Seq(p % cfg.N)) <= u < |s.mem(Seq(p % cfg.N))|
    ensures CopiedWord(s, p % cfg.N, t1, u, j, s.mem(Word(p % cfg.N, j))[t].val)
  {
    var n := p % cfg.N;
    var x := Word(n, j);
    var m := s.mem(x)[t];
    assert MsgOk(cfg, s.mem, s.log, s.pub, x, m);
    TagGrows(cfg, s, x, th.cur(x), t);
    TagGrows(cfg, s, Seq(n), m.view(Seq(n)), u);
  }

  lemma OneMoreWord(cfg: Cfg, s: Shared, p: nat, s1: nat, t1: nat, th: Thread<Loc>, u: nat, u2: nat, idx: Val,
                    words: seq<Val>, t: nat)
    requires Inv(cfg, s) && Anchored(cfg, s, th, p, s1, t1) && Copied(cfg, s, p, t1, u, idx, words) && |words| < cfg.W
    requires th.cur(Word(p % cfg.N, |words|)) <= t < |s.mem(Word(p % cfg.N, |words|))|
    requires u <= u2 < |s.mem(Seq(p % cfg.N))| && s.mem(Word(p % cfg.N, |words|))[t].view(Seq(p % cfg.N)) <= u2
    ensures Copied(cfg, s, p, t1, u2, idx, words + [s.mem(Word(p % cfg.N, |words|))[t].val])
  {
    CopiedMore(cfg, s, p, t1, u, u2, idx, words);
    WordCopied(cfg, s, p, s1, t1, th, |words|, t, u2);
  }

  lemma LoadWordKeeps(cfg: Cfg, s: Shared, r: Reader, c: nat, p: nat, t: nat, th2: Thread<Loc>)
    requires Inv(cfg, s) && RInv(cfg, s, r) && r.pc.AtWords? && c == r.pc.c && p == c - 1 - r.pc.i
    requires |r.pc.words| < cfg.W && CanLoad(s.mem, r.th, Word(p % cfg.N, |r.pc.words|), t)
    requires th2 == LoadRelaxed(s.mem, r.th, Word(p % cfg.N, |r.pc.words|), t)
    ensures ThreadInv(s.mem, th2) && SeesPublished(cfg, s.mem, s.pub, th2.cur, c)
    ensures Anchored(cfg, s, th2, p, r.pc.s1, r.pc.t1)
    ensures Copied(cfg, s, p, r.pc.t1, th2.acq(Seq(p % cfg.N)), r.pc.idx,
                   r.pc.words + [s.mem(Word(p % cfg.N, |r.pc.words|))[t].val])
  {
    assert ThreadInv(s.mem, th2);
    SeesMore(cfg, s, r.th, th2, c);
    AnchoredMore(cfg, s, r.th, th2, p, r.pc.s1, r.pc.t1);
    OneMoreWord(cfg, s, p, r.pc.s1, r.pc.t1, r.th, r.th.acq(Seq(p % cfg.N)), th2.acq(Seq(p % cfg.N)), r.pc.idx, r.pc.words, t);
  }

  /** A step that only advanced the thread's views, and whose new program point holds, keeps the rest. */
  lemma Advanced(cfg: Cfg, s: Shared, r: Reader, r2: Reader, c: nat, i: nat)
    requires cfg.Valid() && RInv(cfg, s, r) && Walking(cfg, s, r, c, i)
    requires r2 == r.(th := r2.th, pc := r2.pc)
    requires ThreadInv(s.mem, r2.th) && r.th.cur(Cursor) <= r2.th.cur(Cursor)
    requires SeesPublished(cfg, s.mem, s.pub, r2.th.cur, c)
    requires match r2.pc
             case AtIndex(c', i', s1, t1) => c' == c && i' == i && Anchored(cfg, s, r2.th, c - 1 - i, s1, t1)
             case AtWords(c', i', s1, t1, idx, words) =>
               && c' == c && i' == i && Anchored(cfg, s, r2.th, c - 1 - i, s1, t1)
               && Copied(cfg, s, c - 1 - i, t1, r2.th.acq(Seq((c - 1 - i) % cfg.N)), idx, words)
             case _ => false
    ensures RInv(cfg, s, r2)
  {
    assert Walking(cfg, s, r2, c, i);
  }

  /** (R2): after the fence the current view covers what the acquire view covered. */
  lemma FenceOutcome(cfg: Cfg, s: Shared, r: Reader, r2: Reader)
    requires cfg.Valid() && RInv(cfg, s, r) && r.pc.AtWords? && |r.pc.words| == cfg.W && r.pc.i < r.pc.c
    requires r2 == r.(th := FenceAcquire(r.th), pc := AtReload(r.pc.c, r.pc.i, r.pc.s1, r.pc.t1, r.pc.idx, r.pc.words))
    requires SeesPublished(cfg, s.mem, s.pub, r2.th.cur, r.pc.c)
    requires Anchored(cfg, s, r2.th, r.pc.c - 1 - r.pc.i, r.pc.s1, r.pc.t1)
    ensures RInv(cfg, s, r2)
  {
    assert r.th.cur(Cursor) <= r2.th.cur(Cursor);
    assert Walking(cfg, s, r2, r.pc.c, r.pc.i);
  }

  lemma AcquireFenceKeeps(cfg: Cfg, s: Shared, r: Reader)
    requires Inv(cfg, s) && RInv(cfg, s, r) && CanRead(cfg, s.mem, r, AcquireFence)
    ensures RInv(cfg, s, Read(cfg, s.mem, r, AcquireFence))
  {
    var r2 := Read(cfg, s.mem, r, AcquireFence);
    SeesMore(cfg, s, r.th, r2.th, r.pc.c);
    AnchoredMore(cfg, s, r.th, r2.th, r.pc.c - 1 - r.pc.i, r.pc.s1, r.pc.t1);
    FenceOutcome(cfg, s, r, r2);
  }

  /** What a reader at its second sequence load has in hand, for the cell of position p. */
  ghost predicate Copy(cfg: Cfg, s: Shared, th: Thread<Loc>, p: nat, s1: nat, t1: nat, idx: Val, words: seq<Val>)
    requires cfg.Valid()
  {
    && Anchored(cfg, s, th, p, s1, t1) && |words| == cfg.W
    && Copied(cfg, s, p, t1, th.cur(Seq(p % cfg.N)), idx, words)
  }

  /**
   Torn reads never validate: two equal even words with no repair in between are one message, so the index and every
   word of the copy are those of its attempt, whichever position that attempt stored.
   */
  lemma ValidatedCopyIsOneStore(cfg: Cfg, s: Shared, th: Thread<Loc>, p: nat, s1: nat, t1: nat, idx: Val,
                                words: seq<Val>, t: nat)
    requires Inv(cfg, s) && Copy(cfg, s, th, p, s1, t1, idx, words) && CanLoad(s.mem, th, Seq(p % cfg.N), t)
    requires s.mem(Seq(p % cfg.N))[t].val.x == s1 && NoRepair(s.mem(Seq(p % cfg.N)), t1, t)
    ensures var k := s.mem(Seq(p % cfg.N))[t1].val.att;
            && s.pub[p] <= k < |s.log| && OfCell(cfg, s.log, p % cfg.N, k)
            && idx.x == s.log[k].idx && Values(words) == s.log[k].value
  {
    var h := s.mem(Seq(p % cfg.N));
    assert HistoryOk(Seq(p % cfg.N), h);
    SeqCounts(h, t1, t);
    assert t == t1;
    var k := h[t1].val.att;
    SeqTagsAscend(h, th.cur(Seq(p % cfg.N)), t);
    assert idx.att == k;
    forall i | 0 <= i < cfg.W ensures Values(words)[i] == s.log[k].value[i] {
      assert CopiedWord(s, p % cfg.N, t1, th.cur(Seq(p % cfg.N)), i, words[i]);
    }
  }

  /** With the expected index, that store is the one that published position p. */
  lemma ValidatedCopyIsPublished(cfg: Cfg, s: Shared, th: Thread<Loc>, p: nat, s1: nat, t1: nat, idx: Val,
                                 words: seq<Val>, t: nat)
    requires Inv(cfg, s) && Copy(cfg, s, th, p, s1, t1, idx, words) && CanLoad(s.mem, th, Seq(p % cfg.N), t)
    requires s.mem(Seq(p % cfg.N))[t].val.x == s1 && NoRepair(s.mem(Seq(p % cfg.N)), t1, t) && idx.x == p
    ensures Values(words) == Published(s, p)
  {
    ValidatedCopyIsOneStore(cfg, s, th, p, s1, t1, idx, words, t);
    var k := s.mem(Seq(p % cfg.N))[t1].val.att;
    if s.pub[p] < k { LaterAttemptLaps(cfg, s, p, k); }
  }

  /** A copy that fails to validate proves that the writer has begun to overwrite position p. */
  lemma FailedCopyMeansLap(cfg: Cfg, s: Shared, th: Thread<Loc>, p: nat, s1: nat, t1: nat, idx: Val,
                           words: seq<Val>, t: nat)
    requires Inv(cfg, s) && Copy(cfg, s, th, p, s1, t1, idx, words) && CanLoad(s.mem, th, Seq(p % cfg.N), t)
    requires s.mem(Seq(p % cfg.N))[t].val.x != s1 || idx.x != p
    ensures Overtaken(cfg, s, p)
  {
    var h := s.mem(Seq(p % cfg.N));
    if h[t].val.x != s1 {
      assert HistoryOk(Seq(p % cfg.N), h);
      AfterEven(h, t1, t);
      NotClosingMeansLap(cfg, s, p, t);
    } else {
      LaterAttemptLaps(cfg, s, p, idx.att);
    }
  }

  /** value is the one published at position p. */
  ghost predicate IsPublished(s: Shared, p: nat, value: seq<nat>) {
    p < |s.pub| && s.pub[p] < |s.log| && value == Published(s, p)
  }

  lemma OneMoreEntry(s: Shared, c: nat, out: seq<seq<nat>>, value: seq<nat>)
    requires NewestFirst(s, c, out) && |out| < c && IsPublished(s, c - 1 - |out|, value)
    ensures NewestFirst(s, c, out + [value])
  {
  }

  lemma SucceedKeeps(cfg: Cfg, s: Shared, r: Reader, rested: Reader, c: nat, i: nat, value: seq<nat>)
    requires cfg.Valid() && RInv(cfg, s, rested) && Walking(cfg, s, rested, c, i) && rested == r.(pc := Resting)
    requires r.clean ==> IsPublished(s, c - 1 - i, value)
    ensures RInv(cfg, s, Succeed(cfg, r, c, i, value))
  {
    if r.clean { OneMoreEntry(s, c, r.out, value); }
    if !r.verb.Snapshot? {
      assert r.out + [value] == [value];
    }
  }

  lemma LoadSeq2Keeps(cfg: Cfg, s: Shared, r: Reader, r2: Reader, c: nat, i: nat, t: nat)
    requires Inv(cfg, s) && RInv(cfg, s, r) && r.pc.AtReload? && r.pc.c == c && r.pc.i == i && i < c
    requires CanLoad(s.mem, r.th, CellSeq(cfg, c, i), t)
    requires r2 == r.(th := LoadRelaxed(s.mem, r.th, CellSeq(cfg, c, i), t), pc := Resting)
    ensures RInv(cfg, s, r2) && Walking(cfg, s, r2, c, i)
  {
    assert ThreadInv(s.mem, r2.th);
    SeesMore(cfg, s, r.th, r2.th, c);
  }

  lemma Seq2Decides(cfg: Cfg, s: Shared, r: Reader, t: nat)
    requires Inv(cfg, s) && RInv(cfg, s, r) && CanSeq2(cfg, s.mem, r, t)
    ensures var (p, x) := (r.pc.c - 1 - r.pc.i, CellSeq(cfg, r.pc.c, r.pc.i));
            if s.mem(x)[t].val.x == r.pc.s1 && r.pc.idx.x == p
            then NoRepair(s.mem(x), r.pc.t1, t) ==> IsPublished(s, p, Values(r.pc.words))
            else Overtaken(cfg, s, p)
  {
    var AtReload(c, i, s1, t1, idx, words) := r.pc;
    var x := CellSeq(cfg, c, i);
    if s.mem(x)[t].val.x == s1 && idx.x == c - 1 - i {
      if NoRepair(s.mem(x), t1, t) { ValidatedCopyIsPublished(cfg, s, r.th, c - 1 - i, s1, t1, idx, words, t); }
    } else {
      FailedCopyMeansLap(cfg, s, r.th, c - 1 - i, s1, t1, idx, words, t);
    }
  }

  /** Forgetting that the copies so far were clean keeps the rest. */
  lemma LessClean(cfg: Cfg, s: Shared, r: Reader, clean: bool, c: nat, i: nat)
    requires cfg.Valid() && RInv(cfg, s, r) && r.pc.Resting? && Walking(cfg, s, r, c, i) && (clean ==> r.clean)
    ensures RInv(cfg, s, r.(clean := clean)) && Walking(cfg, s, r.(clean := clean), c, i)
  {
  }

  lemma Seq2Outcome(cfg: Cfg, s: Shared, r: Reader, r2: Reader, rested: Reader, t: nat)
    requires CanSeq2(cfg, s.mem, r, t)
    requires r2 == r.(th := LoadRelaxed(s.mem, r.th, CellSeq(cfg, r.pc.c, r.pc.i), t)) && rested == r2.(pc := Resting)
    requires RInv(cfg, s, rested) && Walking(cfg, s, rested, r.pc.c, r.pc.i)
    requires var (p, x) := (r.pc.c - 1 - r.pc.i, CellSeq(cfg, r.pc.c, r.pc.i));
             if s.mem(x)[t].val.x == r.pc.s1 && r.pc.idx.x == p
             then NoRepair(s.mem(x), r.pc.t1, t) ==> IsPublished(s, p, Values(r.pc.words))
             else Overtaken(cfg, s, p)
    ensures RInv(cfg, s, Seq2(cfg, s.mem, r, t))
  {
    var c, i := r.pc.c, r.pc.i;
    var x := CellSeq(cfg, c, i);
    if s.mem(x)[t].val.x == r.pc.s1 && r.pc.idx.x == c - 1 - i {
      var clean := r.clean && NoRepair(s.mem(x), r.pc.t1, t);
      LessClean(cfg, s, rested, clean, c, i);
      SucceedKeeps(cfg, s, r2.(clean := clean), rested.(clean := clean), c, i, Values(r.pc.words));
    } else {
      FailKeeps(cfg, s, r2, rested, c, i);
    }
  }

  /** An empty or odd first sequence word: the call ends or retries. */
  lemma Seq1Fails(cfg: Cfg, s: Shared, r: Reader, r2: Reader, t: nat)
    requires CanSeq1(cfg, s.mem, r, t)
    requires r2 == r.(th := LoadAcquire(s.mem, r.th, CellSeq(cfg, r.pc.c, r.pc.i), t), pc := Resting)
    requires RInv(cfg, s, r2) && Walking(cfg, s, r2, r.pc.c, r.pc.i)
    requires var s1 := s.mem(CellSeq(cfg, r.pc.c, r.pc.i))[t].val.x; s1 == 0 || s1 % 2 == 1
    requires Overtaken(cfg, s, r.pc.c - 1 - r.pc.i)
    ensures RInv(cfg, s, Seq1(cfg, s.mem, r, t))
  {
    FailKeeps(cfg, s, r2.(pc := r.pc), r2, r.pc.c, r.pc.i);
  }

  lemma Seq1Keeps(cfg: Cfg, s: Shared, r: Reader, t: nat)
    requires Inv(cfg, s) && RInv(cfg, s, r) && CanSeq1(cfg, s.mem, r, t)
    ensures RInv(cfg, s, Seq1(cfg, s.mem, r, t))
  {
    var r2 := r.(th := LoadAcquire(s.mem, r.th, CellSeq(cfg, r.pc.c, r.pc.i), t), pc := Resting);
    LoadSeq1Keeps(cfg, s, r, r2, r.pc.c, r.pc.i, t);
    var s1 := s.mem(CellSeq(cfg, r.pc.c, r.pc.i))[t].val.x;
    if s1 == 0 || s1 % 2 == 1 {
      Seq1Fails(cfg, s, r, r2, t);
    } else {
      Advanced(cfg, s, r, r2.(pc := AtIndex(r.pc.c, r.pc.i, s1, t)), r.pc.c, r.pc.i);
    }
  }

  lemma IndexOutcome(cfg: Cfg, s: Shared, r: Reader, t: nat, th2: Thread<Loc>, p: nat)
    requires CanIndex(cfg, s.mem, r, t) && RInv(cfg, s, r) && p == r.pc.c - 1 - r.pc.i
    requires th2 == LoadRelaxed(s.mem, r.th, Index(p % cfg.N), t) && ThreadInv(s.mem, th2)
    requires SeesPublished(cfg, s.mem, s.pub, th2.cur, r.pc.c) && Anchored(cfg, s, th2, p, r.pc.s1, r.pc.t1)
    requires Copied(cfg, s, p, r.pc.t1, th2.acq(Seq(p % cfg.N)), s.mem(Index(p % cfg.N))[t].val, [])
    ensures RInv(cfg, s, CopyIndex(cfg, s.mem, r, t))
  {
    Advanced(cfg, s, r, CopyIndex(cfg, s.mem, r, t), r.pc.c, r.pc.i);
  }

  lemma CopyIndexKeeps(cfg: Cfg, s: Shared, r: Reader, t: nat)
    requires Inv(cfg, s) && RInv(cfg, s, r) && CanIndex(cfg, s.mem, r, t)
    ensures RInv(cfg, s, CopyIndex(cfg, s.mem, r, t))
  {
    var p := r.pc.c - 1 - r.pc.i;
    var th2 := LoadRelaxed(s.mem, r.th, Index(p % cfg.N), t);
    LoadIndexKeeps(cfg, s, r, r.pc.c, p, t, th2);
    IndexOutcome(cfg, s, r, t, th2, p);
  }

  lemma CopyWordKeeps(cfg: Cfg, s: Shared, r: Reader, t: nat)
    requires Inv(cfg, s) && RInv(cfg, s, r) && CanWord(cfg, s.mem, r, t)
    ensures RInv(cfg, s, CopyWord(cfg, s.mem, r, t))
  {
    var c, p := r.pc.c, r.pc.c - 1 - r.pc.i;
    LoadWordKeeps(cfg, s, r, c, p, t, LoadRelaxed(s.mem, r.th, Word(p % cfg.N, |r.pc.words|), t));
    Advanced(cfg, s, r, CopyWord(cfg, s.mem, r, t), c, r.pc.i);
  }

  lemma Seq2Keeps(cfg: Cfg, s: Shared, r: Reader, t: nat)
    requires Inv(cfg, s) && RInv(cfg, s, r) && CanSeq2(cfg, s.mem, r, t)
    ensures RInv(cfg, s, Seq2(cfg, s.mem, r, t))
  {
    var r2 := r.(th := LoadRelaxed(s.mem, r.th, CellSeq(cfg, r.pc.c, r.pc.i), t));
    LoadSeq2Keeps(cfg, s, r, r2.(pc := Resting), r.pc.c, r.pc.i, t);
    Seq2Decides(cfg, s, r, t);
    Seq2Outcome(cfg, s, r, r2, r2.(pc := Resting), t);
  }

  lemma ReadKeeps(cfg: Cfg, s: Shared, r: Reader, a: RStep)
    requires Inv(cfg, s) && RInv(cfg, s, r) && CanRead(cfg, s.mem, r, a)
    ensures RInv(cfg, s, Read(cfg, s.mem, r, a))
  {
    match a
    case Call(verb) => CallKeeps(cfg, s, r, verb);
    case LoadCursor(t) => LoadCursorKeeps(cfg, s, r, t);
    case LoadSeq1(t) => Seq1Keeps(cfg, s, r, t);
    case LoadIndex(t) => CopyIndexKeeps(cfg, s, r, t);
    case LoadWord(t) => CopyWordKeeps(cfg, s, r, t);
    case AcquireFence => AcquireFenceKeeps(cfg, s, r);
    case LoadSeq2(t) => Seq2Keeps(cfg, s, r, t);
  }

  // ---- runs of the writer with any number of readers ----

  datatype System = System(shared: Shared, readers: nat -> Reader)

  datatype Action = Write(w: WStep) | ReadBy(id: nat, a: RStep)

  function InitSystem(cfg: Cfg): System {
    System(Init(cfg), (id: nat) => InitReader())
  }

  ghost predicate Enabled(cfg: Cfg, y: System, a: Action) {
    match a
    case Write(w) => CanStep(cfg, y.shared, w)
    case ReadBy(id, b) => CanRead(cfg, y.shared.mem, y.readers(id), b)
  }

  ghost function Act(cfg: Cfg, y: System, a: Action): System
    requires Enabled(cfg, y, a)
  {
    match a
    case Write(w) => y.(shared := Step(cfg, y.shared, w))
    case ReadBy(id, b) =>
      var r2 := Read(cfg, y.shared.mem, y.readers(id), b);
      y.(readers := (j: nat) => if j == id then r2 else y.readers(j))
  }

  ghost predicate Next(cfg: Cfg, y: System, z: System) {
    exists a :: Enabled(cfg, y, a) && z == Act(cfg, y, a)
  }

  /** The successive states of a run. */
  ghost predicate Run(cfg: Cfg, run: seq<System>) {
    && cfg.Valid()
    && |run| > 0 && run[0] == InitSystem(cfg)
    && forall i | 0 < i < |run| :: Next(cfg, run[i - 1], run[i])
  }

  ghost predicate SystemInv(cfg: Cfg, y: System) {
    Inv(cfg, y.shared) && forall id :: RInv(cfg, y.shared, y.readers(id))
  }

  lemma ActKeeps(cfg: Cfg, y: System, a: Action)
    requires SystemInv(cfg, y) && Enabled(cfg, y, a)
    ensures SystemInv(cfg, Act(cfg, y, a))
  {
    var y2 := Act(cfg, y, a);
    match a {
      case Write(w) =>
        StepKeeps(cfg, y.shared, w);
        forall id ensures RInv(cfg, y2.shared, y2.readers(id)) {
          ReaderStable(cfg, y.shared, y2.shared, y.readers(id));
        }
      case ReadBy(id, b) =>
        ReadKeeps(cfg, y.shared, y.readers(id), b);
    }
  }

  lemma {:induction false} RunKeeps(cfg: Cfg, run: seq<System>, i: nat)
    requires Run(cfg, run) && i < |run|
    ensures SystemInv(cfg, run[i])
    decreases i
  {
    if i == 0 {
      InitInv(cfg);
    } else {
      RunKeeps(cfg, run, i - 1);
      assert Next(cfg, run[i - 1], run[i]);
      var a :| Enabled(cfg, run[i - 1], a) && run[i] == Act(cfg, run[i - 1], a);
      ActKeeps(cfg, run[i - 1], a);
    }
  }

  // ---- what the ring promises its readers ----

  /** Load and LoadBounded: the value returned for a captured cursor c is exactly the one published at position c - 1. */
  lemma LoadReturnsPublished(cfg: Cfg, run: seq<System>, i: nat, id: nat)
    requires Run(cfg, run) && i < |run|
    requires run[i].readers(id).outcome.Value? && run[i].readers(id).outcome.clean
    ensures var o, s := run[i].readers(id).outcome, run[i].shared;
            1 <= o.c <= |s.pub| && s.pub[o.c - 1] < |s.log| && o.value == Published(s, o.c - 1)
  {
    RunKeeps(cfg, run, i);
    var o, s := run[i].readers(id).outcome, run[i].shared;
    assert OutcomeOk(cfg, s, o);
    assert [o.value][0] == Published(s, o.c - 1 - 0);
  }

  /** The cell of walk entry j under cursor c has been published over by a later position. */
  ghost predicate PublishedOver(cfg: Cfg, s: Shared, c: nat, j: nat) {
    c - 1 - j + cfg.N < |s.pub|
  }

  /**
   Snapshot: the entries are the published values of positions c-1, c-2, ... without gap or reordering, at most
   min(k, c, N). If the walk stopped before that, the writer had already published over every older entry still to be
   walked, and had at least begun the store that overwrites the one it stopped at.
   */
  lemma SnapshotIsNewestPrefix(cfg: Cfg, run: seq<System>, i: nat, id: nat)
    requires Run(cfg, run) && i < |run|
    requires run[i].readers(id).outcome.Taken?
    ensures var o, s := run[i].readers(id).outcome, run[i].shared;
            && |o.out| <= o.limit == Min(Min(o.k, o.c), cfg.N) && o.c <= |s.pub|
            && (o.clean ==> NewestFirst(s, o.c, o.out))
            && (forall j | |o.out| < j < o.limit :: PublishedOver(cfg, s, o.c, j))
            && (|o.out| < o.limit ==> Overtaken(cfg, s, o.c - 1 - |o.out|))
  {
    RunKeeps(cfg, run, i);
    var o, s := run[i].readers(id).outcome, run[i].shared;
    assert OutcomeOk(cfg, s, o);
    if |o.out| < o.limit { OvertakenMeans(cfg, s, o.c - 1 - |o.out|); }
  }

  /**
   A read-latest call returns nothing only if its captured cursor was zero, or if the writer had begun the store that
   overwrites the newest value below that cursor.
   */
  lemma NothingOnlyIfNoneOrLapped(cfg: Cfg, run: seq<System>, i: nat, id: nat)
    requires Run(cfg, run) && i < |run|
    requires run[i].readers(id).outcome.Empty? || run[i].readers(id).outcome.Stalled?
    ensures var o, s := run[i].readers(id).outcome, run[i].shared;
            (o.Empty? && o.c == 0) || (o.c > 0 && Overtaken(cfg, s, o.c - 1))
  {
    RunKeeps(cfg, run, i);
    assert OutcomeOk(cfg, run[i].shared, run[i].readers(id).outcome);
  }

  /** One reader's successive read-latest calls never return a smaller write position. */
  lemma LoadsNeverGoBack(cfg: Cfg, run: seq<System>, i: nat, id: nat, j: nat, k: nat)
    requires Run(cfg, run) && i < |run| && j < k < |run[i].readers(id).positions|
    ensures var r := run[i].readers(id);
            && r.positions[j] <= r.positions[k]
            && (r.outcome.Value? ==> r.positions[|r.positions| - 1] == r.outcome.c - 1)
  {
    RunKeeps(cfg, run, i);
  }

  lemma Seq1RetryLaps(cfg: Cfg, s: Shared, r: Reader, t: nat)
    requires Inv(cfg, s) && RInv(cfg, s, r) && CanSeq1(cfg, s.mem, r, t)
    requires Seq1(cfg, s.mem, r, t).attempt > r.attempt
    ensures Overtaken(cfg, s, r.pc.c - 1)
  {
    var th2 := LoadAcquire(s.mem, r.th, CellSeq(cfg, r.pc.c, r.pc.i), t);
    LoadSeq1Keeps(cfg, s, r, r.(th := th2, pc := Resting), r.pc.c, r.pc.i, t);
  }

  lemma Seq2RetryLaps(cfg: Cfg, s: Shared, r: Reader, t: nat)
    requires Inv(cfg, s) && RInv(cfg, s, r) && CanSeq2(cfg, s.mem, r, t)
    requires Seq2(cfg, s.mem, r, t).attempt > r.attempt
    ensures Overtaken(cfg, s, r.pc.c - 1)
  {
    FailedCopyMeansLap(cfg, s, r.th, r.pc.c - 1 - r.pc.i, r.pc.s1, r.pc.t1, r.pc.idx, r.pc.words, t);
  }

  lemma RetryOvertaken(cfg: Cfg, s: Shared, r: Reader, a: RStep)
    requires Inv(cfg, s) && RInv(cfg, s, r) && CanRead(cfg, s.mem, r, a)
    requires Read(cfg, s.mem, r, a).attempt > r.attempt
    ensures !r.pc.Resting? && !r.pc.AtCursor? && r.pc.c > 0 && Overtaken(cfg, s, r.pc.c - 1)
  {
    match a
    case LoadSeq1(t) => Seq1RetryLaps(cfg, s, r, t);
    case LoadSeq2(t) => Seq2RetryLaps(cfg, s, r, t);
    case _ =>
  }

  /**
   Each retry of a read-latest call proves that a store overwriting the captured position has begun. That makes N
   publications beyond the captured cursor, unless exactly N - 1 were made and the store of the next one has begun.
   */
  lemma RetryMeansLap(cfg: Cfg, run: seq<System>, i: nat, id: nat, a: RStep)
    requires Run(cfg, run) && i < |run| && CanRead(cfg, run[i].shared.mem, run[i].readers(id), a)
    requires Read(cfg, run[i].shared.mem, run[i].readers(id), a).attempt > run[i].readers(id).attempt
    ensures var (r, s) := (run[i].readers(id), run[i].shared);
            && !r.pc.Resting? && !r.pc.AtCursor? && r.pc.c > 0 && Overtaken(cfg, s, r.pc.c - 1)
            && (|s.pub| >= r.pc.c + cfg.N || (|s.pub| == r.pc.c + cfg.N - 1 && Begun(cfg, s, |s.pub|)))
  {
    RunKeeps(cfg, run, i);
    RetryOvertaken(cfg, run[i].shared, run[i].readers(id), a);
    OvertakenMeans(cfg, run[i].shared, run[i].readers(id).pc.c - 1);
  }

  // ---- without a writer crash, every copy is clean ----

  ghost predicate CrashFree(run: seq<System>) {
    forall i | 0 <= i < |run| :: !run[i].shared.pc.Crashed?
  }

  predicate NoZero(h: seq<Msg<Loc, Val>>) {
    forall t | 0 < t < |h| :: h[t].val.x != 0
  }

  predicate CleanReader(r: Reader) {
    && r.clean
    && match r.outcome
       case Value(_, _, clean) => clean
       case Taken(_, _, _, _, clean) => clean
       case Empty(c) => c == 0
       case _ => true
  }

  ghost predicate AllClean(y: System) {
    && !y.shared.pc.RepairIdx? && !y.shared.pc.RepairOdd?
    && (forall n :: NoZero(y.shared.mem(Seq(n))))
    && (forall id :: CleanReader(y.readers(id)))
  }

  /** While nothing was ever repaired, the cell of a published position is not found zero. */
  lemma PublishedIsNotZero(cfg: Cfg, s: Shared, r: Reader, t: nat)
    requires Inv(cfg, s) && RInv(cfg, s, r) && CanSeq1(cfg, s.mem, r, t)
    requires NoZero(s.mem(CellSeq(cfg, r.pc.c, r.pc.i)))
    ensures s.mem(CellSeq(cfg, r.pc.c, r.pc.i))[t].val.x != 0
  {
    var p := r.pc.c - 1 - r.pc.i;
    var x := CellSeq(cfg, r.pc.c, r.pc.i);
    assert HistoryOk(x, s.mem(x));
    assert Closed(s.mem(x), r.th.cur(x), s.pub[p]);
    ClosedStays(s.mem(x), r.th.cur(x), t, s.pub[p]);
  }

  lemma Seq1KeepsClean(cfg: Cfg, s: Shared, r: Reader, t: nat)
    requires CanSeq1(cfg, s.mem, r, t) && CleanReader(r) && s.mem(CellSeq(cfg, r.pc.c, r.pc.i))[t].val.x != 0
    ensures CleanReader(Seq1(cfg, s.mem, r, t))
  {
  }

  lemma Seq2KeepsClean(cfg: Cfg, s: Shared, r: Reader, t: nat)
    requires CanSeq2(cfg, s.mem, r, t) && CleanReader(r) && NoZero(s.mem(CellSeq(cfg, r.pc.c, r.pc.i)))
    ensures CleanReader(Seq2(cfg, s.mem, r, t))
  {
    assert NoRepair(s.mem(CellSeq(cfg, r.pc.c, r.pc.i)), r.pc.t1, t);
  }

  lemma OtherReadsKeepClean(cfg: Cfg, s: Shared, r: Reader, b: RStep)
    requires CanRead(cfg, s.mem, r, b) && CleanReader(r) && !b.LoadSeq1? && !b.LoadSeq2?
    ensures CleanReader(Read(cfg, s.mem, r, b))
  {
  }

  lemma ReadKeepsClean(cfg: Cfg, s: Shared, r: Reader, b: RStep)
    requires Inv(cfg, s) && RInv(cfg, s, r) && CanRead(cfg, s.mem, r, b) && CleanReader(r)
    requires forall n :: NoZero(s.mem(Seq(n)))
    ensures CleanReader(Read(cfg, s.mem, r, b))
  {
    match b
    case LoadSeq1(t) =>
      PublishedIsNotZero(cfg, s, r, t);
      Seq1KeepsClean(cfg, s, r, t);
    case LoadSeq2(t) => Seq2KeepsClean(cfg, s, r, t);
    case _ => OtherReadsKeepClean(cfg, s, r, b);
  }

  lemma WriteKeepsClean(cfg: Cfg, s: Shared, w: WStep)
    requires CanStep(cfg, s, w) && !s.pc.Crashed? && !s.pc.RepairIdx? && !s.pc.RepairOdd? && w != Crash
    requires forall n :: NoZero(s.mem(Seq(n)))
    ensures !Step(cfg, s, w).pc.RepairIdx? && !Step(cfg, s, w).pc.RepairOdd?
    ensures forall n :: NoZero(Step(cfg, s, w).mem(Seq(n)))
  {
    forall n ensures NoZero(Step(cfg, s, w).mem(Seq(n))) { assert NoZero(s.mem(Seq(n))); }
  }

  lemma ActKeepsClean(cfg: Cfg, y: System, a: Action)
    requires SystemInv(cfg, y) && AllClean(y) && !y.shared.pc.Crashed?
    requires Enabled(cfg, y, a) && !Act(cfg, y, a).shared.pc.Crashed?
    ensures AllClean(Act(cfg, y, a))
  {
    match a {
      case Write(w) => WriteKeepsClean(cfg, y.shared, w);
      case ReadBy(id, b) =>
        assert CleanReader(y.readers(id));
        ReadKeepsClean(cfg, y.shared, y.readers(id), b);
    }
  }

  lemma {:induction false} CrashFreeIsClean(cfg: Cfg, run: seq<System>, i: nat)
    requires Run(cfg, run) && CrashFree(run) && i < |run|
    ensures AllClean(run[i])
    decreases i
  {
    if i > 0 {
      CrashFreeIsClean(cfg, run, i - 1);
      RunKeeps(cfg, run, i - 1);
      assert Next(cfg, run[i - 1], run[i]);
      var a :| Enabled(cfg, run[i - 1], a) && run[i] == Act(cfg, run[i - 1], a);
      ActKeepsClean(cfg, run[i - 1], a);
    }
  }

  /** Without a writer crash no read returns anything but published values, nor nothing once it saw one published. */
  lemma CrashFreeReadsArePublished(cfg: Cfg, run: seq<System>, i: nat, id: nat)
    requires Run(cfg, run) && CrashFree(run) && i < |run|
    ensures match run[i].readers(id).outcome
            case Value(c, value, _) => c >= 1 && NewestFirst(run[i].shared, c, [value])
            case Taken(c, _, _, out, _) => NewestFirst(run[i].shared, c, out)
            case Empty(c) => c == 0
            case _ => true
  {
    RunKeeps(cfg, run, i);
    CrashFreeIsClean(cfg, run, i);
    assert CleanReader(run[i].readers(id));
    assert OutcomeOk(cfg, run[i].shared, run[i].readers(id).outcome);
  }
}
