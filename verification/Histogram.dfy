/**
 HistogramSlot::Record of include/xmbase/telemetry/binding.hpp: any number of threads, each recording one value, one
 step per atomic operation. A load, or a compare-exchange that fails (possibly spuriously), may return any value
 the variable has held; a read-modify-write that succeeds acts on the newest.

 A double is a real number, an infinity or NaN. Addition is a parameter, so nothing depends on it being associative.
 A thread that records +infinity takes no step after its first: the bucket's int addition overflows, and the source
 promises nothing from there on.
 */
module Histogram {

  const BUCKETS: nat := 24
  const INT_MAX: int := 0x7fff_ffff

  datatype Option<T> = None | Some(value: T)

  datatype Double = NaN | NegInf | Finite(r: real) | PosInf {
    predicate Valid() {
      Finite? ==> -Pow2(1024) < r < Pow2(1024)
    }
  }

  /** a < b, which NaN never is. */
  predicate Less(a: Double, b: Double) {
    match a
    case NaN => false
    case NegInf => b.Finite? || b.PosInf?
    case Finite(x) => b.PosInf? || (b.Finite? && x < b.r)
    case PosInf => false
  }

  predicate AtMost(a: Double, b: Double) {
    Less(a, b) || (a == b && !a.NaN?)
  }

  // ---- buckets ----

  function Pow2(e: nat): real {
    if e == 0 then 1.0 else 2.0 * Pow2(e - 1)
  }

  function Log2(v: real): nat
    requires v >= 1.0
    decreases v.Floor
  {
    if v < 2.0 then 0 else 1 + Log2(v / 2.0)
  }

  lemma {:induction false} Log2Bounds(v: real)
    requires v >= 1.0
    ensures Pow2(Log2(v)) <= v < Pow2(Log2(v) + 1)
    decreases v.Floor
  {
    if v >= 2.0 { Log2Bounds(v / 2.0); }
  }

  lemma {:induction false} Pow2Grows(a: nat, b: nat)
    requires a <= b
    ensures 1.0 <= Pow2(a) <= Pow2(b)
    decreases b
  {
    if b > 0 {
      if a == b { Pow2Grows(a - 1, b - 1); } else { Pow2Grows(a, b - 1); }
    }
  }

  /** std::ilogb for v >= 1. */
  function Ilogb(v: Double): int
    requires AtMost(Finite(1.0), v)
  {
    if v.PosInf? then INT_MAX else Log2(v.r)
  }

  /** HistogramBucketOf; None where its int addition overflows. */
  function BucketOf(v: Double): (b: Option<nat>)
    ensures b.Some? ==> b.value < BUCKETS
  {
    if !AtMost(Finite(1.0), v) then Some(0)
    else
      var e := Ilogb(v);
      if e + 1 > INT_MAX then None else Some(if e + 1 >= 23 then 23 else e + 1)
  }

  /** Bucket 0 holds what is not 1 or more, bucket i in between 2^(i-1) and 2^i, the last everything from 2^22. */
  predicate Holds(b: nat, v: Double)
    requires b < BUCKETS
  {
    if b == 0 then !AtMost(Finite(1.0), v)
    else AtMost(Finite(Pow2(b - 1)), v) && (b < BUCKETS - 1 ==> Less(v, Finite(Pow2(b))))
  }

  /** c is bucket number e + 1, or the last one, for a number with logarithm e. */
  lemma FiniteBounds(v: real, c: nat)
    requires 1.0 <= v && c == if Log2(v) + 1 >= BUCKETS - 1 then BUCKETS - 1 else Log2(v) + 1
    ensures 1 <= c < BUCKETS && Pow2(c - 1) <= v && (c < BUCKETS - 1 ==> v < Pow2(c))
  {
    Log2Bounds(v);
    if c == BUCKETS - 1 { Pow2Grows(c - 1, Log2(v)); }
  }

  lemma FiniteBuckets(v: real, b: nat)
    requires b < BUCKETS && 1.0 <= v && Log2(v) + 1 <= INT_MAX
    ensures Holds(b, Finite(v)) <==> BucketOf(Finite(v)) == Some(b)
  {
    var c: nat := if Log2(v) + 1 >= BUCKETS - 1 then BUCKETS - 1 else Log2(v) + 1;
    assert BucketOf(Finite(v)) == Some(c);
    FiniteBounds(v, c);
    if b < c { Pow2Grows(b, c - 1); }
    if c < b { Pow2Grows(c, b - 1); }
  }

  /** A finite double is below 2^1024, so its logarithm is far from overflowing. */
  lemma FiniteLog(v: real)
    requires 1.0 <= v && Finite(v).Valid()
    ensures Log2(v) < 1024
  {
    Log2Bounds(v);
    if Log2(v) >= 1024 { Pow2Grows(1024, Log2(v)); }
  }

  /** Every double has one bucket, and BucketOf finds it, except that it finds none for +infinity, which has the last. */
  lemma BucketsPartition(v: Double, b: nat)
    requires b < BUCKETS && v.Valid()
    ensures BucketOf(v) == Some(b) <==> Holds(b, v) && !v.PosInf?
    ensures BucketOf(v).None? <==> v.PosInf?
    ensures v.PosInf? ==> (Holds(b, v) <==> b == BUCKETS - 1)
  {
    if v.Finite? && 1.0 <= v.r {
      FiniteLog(v.r);
      FiniteBuckets(v.r, b);
    } else if v.Finite? && b > 0 {
      Pow2Grows(0, b - 1);
    }
  }

  // ---- the protocol ----

  datatype Pc =
    | Counting
    | Bucketing
    | LoadingSum
    | Adding(c: Double)
    | LoadingMin
    | Lowering(m: Double)
    | LoadingMax
    | Raising(x: Double)
    | Finished

  type Addition = (Double, Double) -> Double

  /** values: what each thread records. */
  datatype Cfg = Cfg(values: seq<Double>, add: Addition)

  /**
   counted, bucketed, summed: the threads that did so, in order. sums, mins, maxs: every value the variable has
   held, the newest last.
   */
  datatype State = State(count: nat, buckets: seq<nat>, sums: seq<Double>, mins: seq<Double>, maxs: seq<Double>, pcs: seq<Pc>,
                         counted: seq<nat>, bucketed: seq<nat>, summed: seq<nat>)

  datatype Event =
    | AddCount(i: nat)
    | AddBucket(i: nat)
    | LoadSum(i: nat, c: Double)
    | SwapSum(i: nat)
    | SumFails(i: nat, c: Double)
    | LoadMin(i: nat, m: Double)
    | SwapMin(i: nat)
    | MinFails(i: nat, m: Double)
    | KeepMin(i: nat)
    | LoadMax(i: nat, x: Double)
    | SwapMax(i: nat)
    | MaxFails(i: nat, x: Double)
    | KeepMax(i: nat)

  function Init(g: Cfg): State {
    State(0, seq(BUCKETS, b => 0), [Finite(0.0)], [PosInf], [NegInf], seq(|g.values|, i => Counting), [], [], [])
  }

  function Newest<T>(h: seq<T>): T
    requires |h| > 0
  {
    h[|h| - 1]
  }

  predicate Shape(g: Cfg, s: State) {
    && |s.buckets| == BUCKETS && |s.sums| > 0 && |s.mins| > 0 && |s.maxs| > 0
    && |s.pcs| == |g.values|
  }

  predicate CanStep(g: Cfg, s: State, e: Event) {
    && Shape(g, s) && e.i < |s.pcs|
    && match e
       case AddCount(i) => s.pcs[i].Counting?
       case AddBucket(i) => s.pcs[i].Bucketing? && BucketOf(g.values[i]).Some?
       case LoadSum(i, c) => s.pcs[i].LoadingSum? && c in s.sums
       case SwapSum(i) => s.pcs[i].Adding? && s.pcs[i].c == Newest(s.sums)
       case SumFails(i, c) => s.pcs[i].Adding? && c in s.sums
       case LoadMin(i, m) => s.pcs[i].LoadingMin? && m in s.mins
       case SwapMin(i) => s.pcs[i].Lowering? && Less(g.values[i], s.pcs[i].m) && s.pcs[i].m == Newest(s.mins)
       case MinFails(i, m) => s.pcs[i].Lowering? && Less(g.values[i], s.pcs[i].m) && m in s.mins
       case KeepMin(i) => s.pcs[i].Lowering? && !Less(g.values[i], s.pcs[i].m)
       case LoadMax(i, x) => s.pcs[i].LoadingMax? && x in s.maxs
       case SwapMax(i) => s.pcs[i].Raising? && Less(s.pcs[i].x, g.values[i]) && s.pcs[i].x == Newest(s.maxs)
       case MaxFails(i, x) => s.pcs[i].Raising? && Less(s.pcs[i].x, g.values[i]) && x in s.maxs
       case KeepMax(i) => s.pcs[i].Raising? && !Less(s.pcs[i].x, g.values[i])
  }

  function Step(g: Cfg, s: State, e: Event): State
    requires CanStep(g, s, e)
  {
    var i, v := e.i, g.values[e.i];
    match e
    case AddCount(_) => s.(count := s.count + 1, counted := s.counted + [i], pcs := s.pcs[i := Bucketing])
    case AddBucket(_) =>
      var b := BucketOf(v).value;
      s.(buckets := s.buckets[b := s.buckets[b] + 1],
      bucketed := s.bucketed + [i], pcs := s.pcs[i := LoadingSum])
    case LoadSum(_, c) => s.(pcs := s.pcs[i := Adding(c)])
    case SwapSum(_) =>
      s.(sums := s.sums + [g.add(s.pcs[i].c, v)], summed := s.summed + [i], pcs := s.pcs[i := LoadingMin])
    case SumFails(_, c) => s.(pcs := s.pcs[i := Adding(c)])
    case LoadMin(_, m) => s.(pcs := s.pcs[i := Lowering(m)])
    case SwapMin(_) => s.(mins := s.mins + [v], pcs := s.pcs[i := LoadingMax])
    case MinFails(_, m) => s.(pcs := s.pcs[i := Lowering(m)])
    case KeepMin(_) => s.(pcs := s.pcs[i := LoadingMax])
    case LoadMax(_, x) => s.(pcs := s.pcs[i := Raising(x)])
    case SwapMax(_) => s.(maxs := s.maxs + [v], pcs := s.pcs[i := Finished])
    case MaxFails(_, x) => s.(pcs := s.pcs[i := Raising(x)])
    case KeepMax(_) => s.(pcs := s.pcs[i := Finished])
  }

  predicate Run(g: Cfg, s: State, es: seq<Event>, t: State)
    decreases |es|
  {
    if |es| == 0 then s == t else
      CanStep(g, s, es[0]) && Run(g, Step(g, s, es[0]), es[1..], t)
  }

  // ---- the invariant ----

  function Total(b: seq<nat>): nat {
    if |b| == 0 then 0 else Total(b[..|b| - 1]) + b[|b| - 1]
  }

  lemma {:induction false} TotalAddsOne(b: seq<nat>, k: nat)
    requires k < |b|
    ensures Total(b[k := b[k] + 1]) == Total(b) + 1
  {
    var c := b[k := b[k] + 1];
    if k == |b| - 1 {
      assert c[..k] == b[..k];
    } else {
      assert c[..|b| - 1] == b[..|b| - 1][k := b[k] + 1];
      TotalAddsOne(b[..|b| - 1], k);
    }
  }

  /** The additions of the threads in `order`, one after the other, starting from 0. */
  function FoldOf(g: Cfg, order: seq<nat>): Double
    requires forall k | 0 <= k < |order| :: order[k] < |g.values|
  {
    if |order| == 0 then Finite(0.0)
    else g.add(FoldOf(g, order[..|order| - 1]), g.values[order[|order| - 1]])
  }

  function CountIn(g: Cfg, order: seq<nat>, b: nat): nat
    requires forall k | 0 <= k < |order| :: order[k] < |g.values|
  {
    if |order| == 0 then 0
    else CountIn(g, order[..|order| - 1], b) + (if BucketOf(g.values[order[|order| - 1]]) == Some(b) then 1 else 0)
  }

  predicate Distinct(order: seq<nat>) {
    forall j, k | 0 <= j < k < |order| :: order[j] != order[k]
  }

  /** order lists exactly the threads below n for which done holds, once each. */
  ghost predicate Lists(order: seq<nat>, pcs: seq<Pc>, done: Pc -> bool) {
    && Distinct(order)
    && (forall k | 0 <= k < |order| :: order[k] < |pcs| && done(pcs[order[k]]))
    && (forall i | 0 <= i < |pcs| && done(pcs[i]) :: i in order)
  }

  predicate HasCounted(pc: Pc) {
    !pc.Counting?
  }

  predicate HasBucketed(pc: Pc) {
    !pc.Counting? && !pc.Bucketing?
  }

  predicate HasLowered(pc: Pc) {
    pc.LoadingMax? || pc.Raising? || pc.Finished?
  }

  predicate HasSummed(pc: Pc) {
    pc.LoadingMin? || pc.Lowering? || HasLowered(pc)
  }

  ghost predicate ListsInv(g: Cfg, s: State) {
    && Shape(g, s)
    && Lists(s.counted, s.pcs, HasCounted) && Lists(s.bucketed, s.pcs, HasBucketed) && Lists(s.summed, s.pcs, HasSummed)
    && s.count == |s.counted| && Total(s.buckets) == |s.bucketed|
    && (forall b | 0 <= b < BUCKETS :: s.buckets[b] == CountIn(g, s.bucketed, b))
    && Newest(s.sums) == FoldOf(g, s.summed)
  }

  ghost predicate FromValues(g: Cfg, h: seq<Double>, seed: Double) {
    |h| > 0 && h[0] == seed && forall k | 0 < k < |h| :: h[k] in g.values && !h[k].NaN?
  }

  ghost predicate MinInv(g: Cfg, s: State) {
    && Shape(g, s)
    && FromValues(g, s.mins, PosInf)
    && (forall m | m in s.mins :: AtMost(Newest(s.mins), m))
    && (forall i | 0 <= i < |s.pcs| && HasLowered(s.pcs[i]) :: !Less(g.values[i], Newest(s.mins)))
    && (forall i | 0 <= i < |s.pcs| && s.pcs[i].Lowering? :: s.pcs[i].m in s.mins)
  }

  ghost predicate MaxInv(g: Cfg, s: State) {
    && Shape(g, s)
    && FromValues(g, s.maxs, NegInf)
    && (forall x | x in s.maxs :: AtMost(x, Newest(s.maxs)))
    && (forall i | 0 <= i < |s.pcs| && s.pcs[i].Finished? :: !Less(Newest(s.maxs), g.values[i]))
    && (forall i | 0 <= i < |s.pcs| && s.pcs[i].Raising? :: s.pcs[i].x in s.maxs)
  }

  ghost predicate Inv(g: Cfg, s: State) {
    ListsInv(g, s) && MinInv(g, s) && MaxInv(g, s)
  }

  lemma ListsAppend(order: seq<nat>, pcs: seq<Pc>, done: Pc -> bool, i: nat, pc: Pc)
    requires Lists(order, pcs, done) && i < |pcs| && !done(pcs[i]) && done(pc)
    ensures Lists(order + [i], pcs[i := pc], done)
  {
    var o2, p2 := order + [i], pcs[i := pc];
    forall k | 0 <= k < |pcs| && done(p2[k]) ensures k in o2 {
      if k == i { assert o2[|order|] == i; } else { assert k in order; }
    }
  }

  lemma ListsSame(order: seq<nat>, pcs: seq<Pc>, done: Pc -> bool, i: nat, pc: Pc)
    requires Lists(order, pcs, done) && i < |pcs| && done(pcs[i]) == done(pc)
    ensures Lists(order, pcs[i := pc], done)
  {
  }

  lemma AppendedFold(g: Cfg, order: seq<nat>, i: nat)
    requires i < |g.values| && forall k | 0 <= k < |order| :: order[k] < |g.values|
    ensures FoldOf(g, order + [i]) == g.add(FoldOf(g, order), g.values[i])
  {
    assert (order + [i])[..|order|] == order;
  }

  lemma AppendedCount(g: Cfg, order: seq<nat>, i: nat, b: nat)
    requires i < |g.values| && forall k | 0 <= k < |order| :: order[k] < |g.values|
    ensures CountIn(g, order + [i], b) == CountIn(g, order, b) + (if BucketOf(g.values[i]) == Some(b) then 1 else 0)
  {
    assert (order + [i])[..|order|] == order;
  }

  predicate Logs(e: Event) {
    e.AddCount? || e.AddBucket? || e.SwapSum?
  }

  lemma CountKeepsLists(g: Cfg, s: State, i: nat)
    requires Inv(g, s) && CanStep(g, s, AddCount(i))
    ensures ListsInv(g, Step(g, s, AddCount(i)))
  {
    ListsAppend(s.counted, s.pcs, HasCounted, i, Bucketing);
    ListsSame(s.bucketed, s.pcs, HasBucketed, i, Bucketing);
    ListsSame(s.summed, s.pcs, HasSummed, i, Bucketing);
  }

  lemma OneMoreBucketed(g: Cfg, s: State, i: nat)
    requires ListsInv(g, s) && CanStep(g, s, AddBucket(i))
    ensures var t := Step(g, s, AddBucket(i));
            && |t.buckets| == BUCKETS && Total(t.buckets) == Total(s.buckets) + 1
            && forall b | 0 <= b < BUCKETS :: t.buckets[b] == CountIn(g, s.bucketed + [i], b)
  {
    var t := Step(g, s, AddBucket(i));
    TotalAddsOne(s.buckets, BucketOf(g.values[i]).value);
    forall b | 0 <= b < BUCKETS ensures t.buckets[b] == CountIn(g, s.bucketed + [i], b) {
      AppendedCount(g, s.bucketed, i, b);
    }
  }

  lemma BucketKeepsLists(g: Cfg, s: State, i: nat)
    requires Inv(g, s) && CanStep(g, s, AddBucket(i))
    ensures ListsInv(g, Step(g, s, AddBucket(i)))
  {
    ListsSame(s.counted, s.pcs, HasCounted, i, LoadingSum);
    ListsAppend(s.bucketed, s.pcs, HasBucketed, i, LoadingSum);
    ListsSame(s.summed, s.pcs, HasSummed, i, LoadingSum);
    OneMoreBucketed(g, s, i);
  }

  lemma SumKeepsLists(g: Cfg, s: State, i: nat)
    requires Inv(g, s) && CanStep(g, s, SwapSum(i))
    ensures ListsInv(g, Step(g, s, SwapSum(i)))
  {
    ListsSame(s.counted, s.pcs, HasCounted, i, LoadingMin);
    ListsSame(s.bucketed, s.pcs, HasBucketed, i, LoadingMin);
    ListsAppend(s.summed, s.pcs, HasSummed, i, LoadingMin);
    AppendedFold(g, s.summed, i);
  }

  lemma OthersKeepLists(g: Cfg, s: State, e: Event)
    requires Inv(g, s) && CanStep(g, s, e) && !Logs(e)
    ensures ListsInv(g, Step(g, s, e))
  {
    var pc := Step(g, s, e).pcs[e.i];
    ListsSame(s.counted, s.pcs, HasCounted, e.i, pc);
    ListsSame(s.bucketed, s.pcs, HasBucketed, e.i, pc);
    ListsSame(s.summed, s.pcs, HasSummed, e.i, pc);
    assert Step(g, s, e).pcs == s.pcs[e.i := pc];
  }

  lemma NotLess(a: Double, b: Double, c: Double)
    requires !Less(a, c) && Less(b, c)
    ensures !Less(a, b)
  {
  }

  lemma NotMore(a: Double, b: Double, c: Double)
    requires !Less(c, a) && Less(c, b)
    ensures !Less(b, a)
  {
  }

  lemma SwapMinKeeps(g: Cfg, s: State, i: nat)
    requires Inv(g, s) && CanStep(g, s, SwapMin(i))
    ensures MinInv(g, Step(g, s, SwapMin(i)))
  {
    var t, v, m := Step(g, s, SwapMin(i)), g.values[i], Newest(s.mins);
    assert Newest(t.mins) == v && Less(v, m);
    assert forall x | x in t.mins :: x in s.mins || x == v;
    assert forall x | x in s.mins :: x in t.mins;
    forall j | 0 <= j < |t.pcs| && HasLowered(t.pcs[j]) ensures !Less(g.values[j], v) {
      if j != i { NotLess(g.values[j], v, m); }
    }
  }

  lemma OthersKeepMin(g: Cfg, s: State, e: Event)
    requires Inv(g, s) && CanStep(g, s, e) && !e.SwapMin?
    ensures MinInv(g, Step(g, s, e))
  {
    assert Step(g, s, e).mins == s.mins;
  }

  lemma StepKeepsMin(g: Cfg, s: State, e: Event)
    requires Inv(g, s) && CanStep(g, s, e)
    ensures MinInv(g, Step(g, s, e))
  {
    if e.SwapMin? {
      SwapMinKeeps(g, s, e.i);
    } else {
      OthersKeepMin(g, s, e);
    }
  }

  lemma SwapMaxKeeps(g: Cfg, s: State, i: nat)
    requires Inv(g, s) && CanStep(g, s, SwapMax(i))
    ensures MaxInv(g, Step(g, s, SwapMax(i)))
  {
    var t, v, m := Step(g, s, SwapMax(i)), g.values[i], Newest(s.maxs);
    assert Newest(t.maxs) == v && Less(m, v);
    assert forall x | x in t.maxs :: x in s.maxs || x == v;
    assert forall x | x in s.maxs :: x in t.maxs;
    forall j | 0 <= j < |t.pcs| && t.pcs[j].Finished? ensures !Less(v, g.values[j]) {
      if j != i { NotMore(g.values[j], v, m); }
    }
  }

  lemma OthersKeepMax(g: Cfg, s: State, e: Event)
    requires Inv(g, s) && CanStep(g, s, e) && !e.SwapMax?
    ensures MaxInv(g, Step(g, s, e))
  {
    assert Step(g, s, e).maxs == s.maxs;
  }

  lemma StepKeepsMax(g: Cfg, s: State, e: Event)
    requires Inv(g, s) && CanStep(g, s, e)
    ensures MaxInv(g, Step(g, s, e))
  {
    if e.SwapMax? {
      SwapMaxKeeps(g, s, e.i);
    } else {
      OthersKeepMax(g, s, e);
    }
  }

  lemma StepKeepsLists(g: Cfg, s: State, e: Event)
    requires Inv(g, s) && CanStep(g, s, e)
    ensures ListsInv(g, Step(g, s, e))
  {
    match e
    case AddCount(i) => CountKeepsLists(g, s, i);
    case AddBucket(i) => BucketKeepsLists(g, s, i);
    case SwapSum(i) => SumKeepsLists(g, s, i);
    case _ => OthersKeepLists(g, s, e);
  }

  lemma StepKeeps(g: Cfg, s: State, e: Event)
    requires Inv(g, s) && CanStep(g, s, e)
    ensures Inv(g, Step(g, s, e))
  {
    StepKeepsLists(g, s, e);
    StepKeepsMin(g, s, e);
    StepKeepsMax(g, s, e);
  }

  lemma {:induction false} TotalOfZeros(n: nat)
    ensures Total(seq(n, b => 0)) == 0
  {
    if n > 0 {
      var z := seq(n, b => 0);
      assert z[..n - 1] == seq(n - 1, b => 0);
      TotalOfZeros(n - 1);
    }
  }

  lemma InitInv(g: Cfg)
    ensures Inv(g, Init(g))
  {
    TotalOfZeros(BUCKETS);
  }

  lemma {:induction false} RunKeeps(g: Cfg, s: State, es: seq<Event>, t: State)
    requires Inv(g, s) && Run(g, s, es, t)
    ensures Inv(g, t)
    decreases |es|
  {
    if |es| > 0 {
      StepKeeps(g, s, es[0]);
      RunKeeps(g, Step(g, s, es[0]), es[1..], t);
    }
  }

  // ---- what every run satisfies ----

  function Threads(pcs: seq<Pc>, done: Pc -> bool): set<nat> {
    set i | 0 <= i < |pcs| && done(pcs[i])
  }

  function Members(order: seq<nat>): set<nat> {
    set i | i in order
  }

  lemma {:induction false} DistinctLength(order: seq<nat>)
    requires Distinct(order)
    ensures |Members(order)| == |order|
  {
    if |order| > 0 {
      var n := |order| - 1;
      DistinctLength(order[..n]);
      assert order == order[..n] + [order[n]];
      assert Members(order) == Members(order[..n]) + {order[n]};
    }
  }

  lemma ListedThreads(order: seq<nat>, pcs: seq<Pc>, done: Pc -> bool)
    requires Lists(order, pcs, done)
    ensures |order| == |Threads(pcs, done)|
  {
    DistinctLength(order);
    assert Members(order) == Threads(pcs, done);
  }

  lemma CountedThreads(pcs: seq<Pc>)
    ensures |Threads(pcs, HasCounted)| == |Threads(pcs, HasBucketed)| + |Threads(pcs, (pc: Pc) => pc.Bucketing?)|
  {
    var between := Threads(pcs, (pc: Pc) => pc.Bucketing?);
    assert Threads(pcs, HasCounted) == Threads(pcs, HasBucketed) + between;
  }

  lemma CountedIsBucketedAndBetween(g: Cfg, s: State)
    requires ListsInv(g, s)
    ensures s.count == Total(s.buckets) + |Threads(s.pcs, (pc: Pc) => pc.Bucketing?)|
  {
    ListedThreads(s.counted, s.pcs, HasCounted);
    ListedThreads(s.bucketed, s.pcs, HasBucketed);
    CountedThreads(s.pcs);
  }

  /** At every moment the count exceeds the sum of the buckets by the threads that are between the two additions. */
  lemma CountAheadOfBuckets(g: Cfg, es: seq<Event>, s: State)
    requires Run(g, Init(g), es, s)
    ensures s.count == Total(s.buckets) + |Threads(s.pcs, (pc: Pc) => pc.Bucketing?)|
  {
    InitInv(g);
    RunKeeps(g, Init(g), es, s);
    CountedIsBucketedAndBetween(g, s);
  }

  ghost predicate Quiet(s: State) {
    forall i | 0 <= i < |s.pcs| :: s.pcs[i].Finished?
  }

  /** order takes each thread once. */
  ghost predicate Permutation(order: seq<nat>, n: nat) {
    |order| == n && Distinct(order) && (forall k | 0 <= k < |order| :: order[k] < n) && forall i: nat | i < n :: i in order
  }

  /** Once all records are complete, count and buckets agree and sum is the fold of the addition over some order. */
  lemma QuietTotals(g: Cfg, es: seq<Event>, s: State)
    requires Run(g, Init(g), es, s) && Quiet(s)
    ensures s.count == Total(s.buckets) == |g.values| && |s.buckets| == BUCKETS
    ensures Permutation(s.summed, |g.values|) && Permutation(s.bucketed, |g.values|)
    ensures |s.sums| > 0 && Newest(s.sums) == FoldOf(g, s.summed)
    ensures |g.values| == 0 ==> Newest(s.sums) == Finite(0.0)
    ensures |g.values| == 1 ==> Newest(s.sums) == g.add(Finite(0.0), g.values[0])
    ensures forall b | 0 <= b < BUCKETS :: s.buckets[b] == CountIn(g, s.bucketed, b)
  {
    InitInv(g);
    RunKeeps(g, Init(g), es, s);
    AllListed(s.counted, s.pcs, HasCounted);
    AllListed(s.bucketed, s.pcs, HasBucketed);
    AllListed(s.summed, s.pcs, HasSummed);
  }

  function UpTo(n: nat): (s: set<nat>)
    ensures |s| == n && forall i: nat :: i in s <==> i < n
  {
    if n == 0 then {} else UpTo(n - 1) + {n - 1}
  }

  lemma AllListed(order: seq<nat>, pcs: seq<Pc>, done: Pc -> bool)
    requires Lists(order, pcs, done) && forall i | 0 <= i < |pcs| :: done(pcs[i])
    ensures Permutation(order, |pcs|)
  {
    ListedThreads(order, pcs, done);
    assert Threads(pcs, done) == UpTo(|pcs|);
  }

  /** extreme is the seed if no number was recorded, else one of the recorded values. */
  predicate Recorded(g: Cfg, extreme: Double, seed: Double) {
    && !extreme.NaN?
    && (extreme in g.values || extreme == seed)
    && ((exists v :: v in g.values && !v.NaN?) ==> extreme in g.values)
  }

  lemma QuietMin(g: Cfg, s: State, i: nat)
    requires MinInv(g, s) && i < |s.pcs| && s.pcs[i].Finished? && !g.values[i].NaN?
    ensures AtMost(Newest(s.mins), g.values[i])
  {
    assert HasLowered(s.pcs[i]);
  }

  lemma QuietMax(g: Cfg, s: State, i: nat)
    requires MaxInv(g, s) && i < |s.pcs| && s.pcs[i].Finished? && !g.values[i].NaN?
    ensures AtMost(g.values[i], Newest(s.maxs))
  {
  }

  lemma MinRecorded(g: Cfg, s: State)
    requires MinInv(g, s) && Quiet(s)
    ensures Recorded(g, Newest(s.mins), PosInf)
  {
    if v :| v in g.values && !v.NaN? {
      var i :| 0 <= i < |g.values| && g.values[i] == v;
      QuietMin(g, s, i);
    }
  }

  lemma MaxRecorded(g: Cfg, s: State)
    requires MaxInv(g, s) && Quiet(s)
    ensures Recorded(g, Newest(s.maxs), NegInf)
  {
    if v :| v in g.values && !v.NaN? {
      var i :| 0 <= i < |g.values| && g.values[i] == v;
      QuietMax(g, s, i);
    }
  }

  lemma ValueBetween(g: Cfg, s: State, v: Double)
    requires MinInv(g, s) && MaxInv(g, s) && Quiet(s) && v in g.values && !v.NaN?
    ensures AtMost(Newest(s.mins), v) && AtMost(v, Newest(s.maxs))
  {
    var i :| 0 <= i < |g.values| && g.values[i] == v;
    QuietMin(g, s, i);
    QuietMax(g, s, i);
  }

  /**
   Once all records are complete, min and max are the extremes of the recorded numbers, or at their seeds if there are
   none; NaN leaves them alone.
   */
  lemma QuietExtremes(g: Cfg, es: seq<Event>, s: State)
    requires Run(g, Init(g), es, s) && Quiet(s)
    ensures Shape(g, s) && Recorded(g, Newest(s.mins), PosInf) && Recorded(g, Newest(s.maxs), NegInf)
    ensures forall v | v in g.values && !v.NaN? :: AtMost(Newest(s.mins), v) && AtMost(v, Newest(s.maxs))
  {
    InitInv(g);
    RunKeeps(g, Init(g), es, s);
    MinRecorded(g, s);
    MaxRecorded(g, s);
    forall v | v in g.values && !v.NaN? ensures AtMost(Newest(s.mins), v) && AtMost(v, Newest(s.maxs)) {
      ValueBetween(g, s, v);
    }
  }
}
