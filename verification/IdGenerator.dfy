/**
 detail::NextId of src/telemetry_unbound.cpp: splitmix64 over one thread's state, on 64-bit words with wrap-around.
 */
module IdGenerator {
  import opened Cycles

  const TWO64: nat := 0x1_0000_0000_0000_0000

  /** What the generator starts from if the random device yields 0; also the increment. */
  const GAMMA: bv64 := 0x9E3779B97F4A7C15

  function Advance(state: bv64): bv64 {
    state + 0x9E3779B97F4A7C15
  }

  function Fold30(z: bv64): bv64 {
    z ^ (z >> 30)
  }

  function Fold27(z: bv64): bv64 {
    z ^ (z >> 27)
  }

  function Fold31(z: bv64): bv64 {
    z ^ (z >> 31)
  }

  function Scale1(z: bv64): bv64 {
    z * 0xBF58476D1CE4E5B9
  }

  function Scale2(z: bv64): bv64 {
    z * 0x94D049BB133111EB
  }

  function Mix(state: bv64): bv64 {
    Fold31(Scale2(Fold27(Scale1(Fold30(state)))))
  }

  function MixAt(seed: bv64, k: nat): bv64 {
    Mix(Times(Advance, seed, k))
  }

  /** The id that call k returns; the first call is call 1. */
  function NthId(seed: bv64, k: nat): bv64 {
    Replace(MixAt(seed, k), 0, 1)
  }

  // ---- the mixing steps can be undone ----

  // Multiplication by the inverses modulo 2^64 of the two odd constants.

  function Unscale1(z: bv64): bv64 {
    z * 0x96DE1B173F119089
  }

  function Unscale2(z: bv64): bv64 {
    z * 0x319642B2D24D8EC3
  }

  lemma Unscaled1(z: bv64)
    ensures Unscale1(z * 0xBF58476D1CE4E5B9) == z
  {
  }

  lemma Unscaled2(z: bv64)
    ensures Unscale2(z * 0x94D049BB133111EB) == z
  {
  }

  function Unfold30(z: bv64): bv64 {
    z ^ (z >> 30) ^ (z >> 60)
  }

  function Unfold27(z: bv64): bv64 {
    z ^ (z >> 27) ^ (z >> 54)
  }

  function Unfold31(z: bv64): bv64 {
    z ^ (z >> 31) ^ (z >> 62)
  }

  lemma Unfolded30(z: bv64)
    ensures Unfold30(z ^ (z >> 30)) == z
  {
  }

  lemma Unfolded27(z: bv64)
    ensures Unfold27(z ^ (z >> 27)) == z
  {
  }

  lemma Unfolded31(z: bv64)
    ensures Unfold31(z ^ (z >> 31)) == z
  {
  }

  /** Undoes five steps: three folds by 30, 27 and 31 bits, two multiplications in between. */
  function Unmix(z: bv64): bv64 {
    Unfold30(Unscale1(Unfold27(Unscale2(Unfold31(z)))))
  }

  lemma Unfolds()
    ensures forall z :: Unfold30(Fold30(z)) == z
    ensures forall z :: Unfold27(Fold27(z)) == z
    ensures forall z :: Unfold31(Fold31(z)) == z
  {
    forall z ensures Unfold30(Fold30(z)) == z { Unfolded30(z); }
    forall z ensures Unfold27(Fold27(z)) == z { Unfolded27(z); }
    forall z ensures Unfold31(Fold31(z)) == z { Unfolded31(z); }
  }

  lemma Unscales()
    ensures forall z :: Unscale1(Scale1(z)) == z
    ensures forall z :: Unscale2(Scale2(z)) == z
  {
    forall z ensures Unscale1(Scale1(z)) == z { Unscaled1(z); }
    forall z ensures Unscale2(Scale2(z)) == z { Unscaled2(z); }
  }

  /** Every step of the mixing is there: this undoes it. */
  lemma MixIsUndone(x: bv64)
    ensures Unmix(Mix(x)) == x
  {
    Unfolds();
    Unscales();
    FiveUndone(Fold30, Scale1, Fold27, Scale2, Fold31, Unfold30, Unscale1, Unfold27, Unscale2, Unfold31, x);
  }

  lemma MixIsInjective(x: bv64, y: bv64)
    requires Mix(x) == Mix(y)
    ensures x == y
  {
    MixIsUndone(x);
    MixIsUndone(y);
  }

  lemma FirstThree(seed: bv64)
    ensures MixAt(seed, 1) == Mix(Advance(seed)) && MixAt(seed, 2) == Mix(Advance(Advance(seed)))
    ensures MixAt(seed, 3) == Mix(Advance(Advance(Advance(seed))))
  {
    assert Times(Advance, seed, 0) == seed;
    assert Times(Advance, seed, 1) == Advance(seed);
    assert Times(Advance, seed, 2) == Advance(Advance(seed));
    assert Times(Advance, seed, 3) == Advance(Advance(Advance(seed)));
  }

  lemma MixedOutputs()
    ensures Mix(0x9E3779B97F4A7C15) == 0xE220A8397B1DCDAF
    ensures Mix(0x3C6EF372FE94F82A) == 0x6E789E6AA1B965F4
    ensures Mix(0xDAA66D2C7DDF743F) == 0x06C45D188009454F
  {
  }

  /** From state 0 the generator yields the first outputs that are published for splitmix64. */
  lemma PublishedOutputs()
    ensures NthId(0, 1) == 0xE220A8397B1DCDAF && NthId(0, 2) == 0x6E789E6AA1B965F4 && NthId(0, 3) == 0x06C45D188009454F
  {
    FirstThree(0);
    MixedOutputs();
  }

  // ---- the state has full period ----

  function Inc(x: bv64): bv64 {
    x + 1
  }

  function Half(x: bv64): bv64 {
    x >> 1
  }

  predicate Odd(x: bv64) {
    x & 1 != 0
  }

  const LAST: bv64 := 0xFFFF_FFFF_FFFF_FFFF

  lemma IncOfEven(x: bv64)
    requires !Odd(x)
    ensures Odd(Inc(x)) && Half(Inc(x)) == Half(x)
  {
  }

  lemma IncOfOdd(x: bv64)
    requires Odd(x) && Inc(x) != 0
    ensures !Odd(Inc(x)) && Half(Inc(x)) == Inc(Half(x)) && Inc(Half(x)) != 0
  {
  }

  lemma IncToZero(x: bv64)
    requires Inc(x) == 0
    ensures x == LAST
  {
  }

  lemma IncCounts()
    ensures Counts(Inc, Half, Odd, 0, LAST)
  {
    forall x | !Odd(x) ensures Odd(Inc(x)) && Half(Inc(x)) == Half(x) { IncOfEven(x); }
    forall x | Odd(x) && Inc(x) != 0
      ensures !Odd(Inc(x)) && Half(Inc(x)) == Inc(Half(x)) && Inc(Half(x)) != 0 { IncOfOdd(x); }
    forall x | Inc(x) == 0 ensures x == LAST { IncToZero(x); }
  }

  lemma EightHalves(x: bv64)
    ensures Half(Half(Half(Half(Half(Half(Half(Half(x)))))))) == x >> 8
  {
  }

  lemma TwoHalves(x: bv64, w: nat)
    ensures Halved(Half, x, w + 2) == Halved(Half, Half(Half(x)), w)
  {
    assert Halved(Half, x, w + 2) == Halved(Half, Half(x), w + 1);
  }

  function Byte(x: bv64): bv64 {
    x >> 8
  }

  lemma HalvedEight(x: bv64, w: nat)
    ensures Halved(Half, x, w + 8) == Halved(Half, Byte(x), w)
  {
    var x2 := Half(Half(x));
    var x4 := Half(Half(x2));
    var x6 := Half(Half(x4));
    TwoHalves(x, w + 6);
    TwoHalves(x2, w + 4);
    TwoHalves(x4, w + 2);
    TwoHalves(x6, w);
    EightHalves(x);
  }

  lemma {:induction false} HalvedBytes(x: bv64, n: nat)
    ensures Halved(Half, x, 8 * n) == Halved(Byte, x, n)
  {
    if n > 0 {
      HalvedEight(x, 8 * (n - 1));
      HalvedBytes(Byte(x), n - 1);
    }
  }

  lemma EightBytes(x: bv64)
    ensures Byte(Byte(Byte(Byte(Byte(Byte(Byte(Byte(x)))))))) == 0
  {
  }

  lemma TwoBytes(x: bv64, w: nat)
    ensures Halved(Byte, x, w + 2) == Halved(Byte, Byte(Byte(x)), w)
  {
    assert Halved(Byte, x, w + 2) == Halved(Byte, Byte(x), w + 1);
  }

  /** Sixty-four halvings leave nothing. */
  lemma HalvedAway(x: bv64)
    ensures Halved(Half, x, 64) == 0
  {
    HalvedBytes(x, 8);
    var x2 := Byte(Byte(x));
    var x4 := Byte(Byte(x2));
    var x6 := Byte(Byte(x4));
    TwoBytes(x, 6);
    TwoBytes(x2, 4);
    TwoBytes(x4, 2);
    TwoBytes(x6, 0);
    EightBytes(x);
  }

  // ---- all 64 bits of LAST are set ----

  predicate OddByte(x: bv64) {
    x & 0xFF == 0xFF
  }

  lemma EightOdd(x: bv64)
    requires OddByte(x)
    ensures Odd(x) && Odd(Half(x)) && Odd(Half(Half(x))) && Odd(Half(Half(Half(x))))
    ensures var y := Half(Half(Half(Half(x)))); Odd(y) && Odd(Half(y)) && Odd(Half(Half(y))) && Odd(Half(Half(Half(y))))
  {
  }

  lemma FourSet(x: bv64, w: nat)
    requires Odd(x) && Odd(Half(x)) && Odd(Half(Half(x))) && Odd(Half(Half(Half(x))))
    requires AllSet(Half, Odd, Half(Half(Half(Half(x)))), w)
    ensures AllSet(Half, Odd, x, w + 4)
  {
    assert AllSet(Half, Odd, Half(Half(Half(x))), w + 1);
    assert AllSet(Half, Odd, Half(Half(x)), w + 2);
    assert AllSet(Half, Odd, Half(x), w + 3);
  }

  lemma {:induction false} BytesSet(x: bv64, n: nat)
    requires AllSet(Byte, OddByte, x, n)
    ensures AllSet(Half, Odd, x, 8 * n)
  {
    if n > 0 {
      BytesSet(Byte(x), n - 1);
      EightOdd(x);
      EightHalves(x);
      var y := Half(Half(Half(Half(x))));
      FourSet(y, 8 * (n - 1));
      FourSet(x, 8 * (n - 1) + 4);
    }
  }

  lemma AllSet64()
    ensures AllSet(Half, Odd, LAST, 64)
  {
    assert AllSet(Byte, OddByte, 0xFF, 1);
    assert AllSet(Byte, OddByte, 0xFFFF, 2);
    assert AllSet(Byte, OddByte, 0xFF_FFFF, 3);
    assert AllSet(Byte, OddByte, 0xFFFF_FFFF, 4);
    assert AllSet(Byte, OddByte, 0xFF_FFFF_FFFF, 5);
    assert AllSet(Byte, OddByte, 0xFFFF_FFFF_FFFF, 6);
    assert AllSet(Byte, OddByte, 0xFF_FFFF_FFFF_FFFF, 7);
    assert AllSet(Byte, OddByte, 0xFFFF_FFFF_FFFF_FFFF, 8);
    BytesSet(LAST, 8);
  }

  lemma Power64()
    ensures Power2(64) == TWO64
  {
    Powers(0);
    Powers(8);
    Powers(16);
    Powers(24);
    Powers(32);
    Powers(40);
    Powers(48);
    Powers(56);
  }

  lemma Powers(w: nat)
    ensures Power2(w + 8) == 256 * Power2(w)
  {
    assert Power2(w + 4) == 16 * Power2(w) by {
      assert Power2(w + 2) == 4 * Power2(w);
      assert Power2(w + 4) == 4 * Power2(w + 2);
    }
    assert Power2(w + 6) == 4 * Power2(w + 4);
    assert Power2(w + 8) == 4 * Power2(w + 6);
  }

  /** 64-bit counters count: the first 2^64 increments of 0 are all different. */
  lemma CountersDiffer(i: nat, j: nat)
    requires i < TWO64 && j < TWO64 && Times(Inc, 0, i) == Times(Inc, 0, j)
    ensures i == j
  {
    IncCounts();
    forall x ensures Halved(Half, x, 64) == 0 { HalvedAway(x); }
    AllSet64();
    Power64();
    ZeroIsEven();
    IncrementsDiffer(Inc, Half, Odd, 0, LAST, 64, i, j);
  }

  lemma ZeroIsEven()
    ensures !Odd(0) && Half(0) == 0
  {
  }

  // ---- the state after k calls ----

  function StateAt(seed: bv64, count: bv64): bv64 {
    seed + count * 0x9E3779B97F4A7C15
  }

  /** How many increments separate a state from the seed: multiplication by the inverse of the increment. */
  function Index(seed: bv64, state: bv64): bv64 {
    (state - seed) * 0xF1DE83E19937733D
  }

  lemma StateAdvances(seed: bv64, count: bv64)
    ensures StateAt(seed, count + 1) == Advance(seed + count * 0x9E3779B97F4A7C15)
  {
  }

  lemma IndexOfState(seed: bv64, count: bv64)
    ensures Index(seed, seed + count * 0x9E3779B97F4A7C15) == count
  {
  }

  lemma StateAtZero(seed: bv64)
    ensures StateAt(seed, 0) == seed
  {
  }

  lemma IncAdvances(seed: bv64, count: bv64)
    ensures StateAt(seed, Inc(count)) == Advance(StateAt(seed, count))
  {
    StateAdvances(seed, count);
  }

  lemma StatesDiffer(seed: bv64, c: bv64, d: bv64)
    requires StateAt(seed, c) == StateAt(seed, d)
    ensures c == d
  {
    IndexOfState(seed, c);
    IndexOfState(seed, d);
  }

  /** Within 2^64 calls the state never repeats. */
  lemma FullPeriod(seed: bv64, i: nat, j: nat)
    requires i < TWO64 && j < TWO64 && Times(Advance, seed, i) == Times(Advance, seed, j)
    ensures i == j
  {
    var phi := c => StateAt(seed, c);
    forall c ensures phi(Inc(c)) == Advance(phi(c)) { IncAdvances(seed, c); }
    StateAtZero(seed);
    Conjugate(Inc, Advance, phi, 0, i);
    Conjugate(Inc, Advance, phi, 0, j);
    StatesDiffer(seed, Times(Inc, 0, i), Times(Inc, 0, j));
    CountersDiffer(i, j);
  }

  // ---- ids ----

  lemma SameMix(seed: bv64, i: nat, j: nat)
    requires i < TWO64 && j < TWO64 && MixAt(seed, i) == MixAt(seed, j)
    ensures i == j
  {
    MixIsInjective(Times(Advance, seed, i), Times(Advance, seed, j));
    FullPeriod(seed, i, j);
  }

  lemma MixesDiffer(seed: bv64, a: nat, b: nat)
    requires a < b < TWO64
    ensures MixAt(seed, a) != MixAt(seed, b)
  {
    if MixAt(seed, a) == MixAt(seed, b) { SameMix(seed, a, b); }
  }

  /** Within 2^64 calls at most one pair of calls returns equal ids, and that id is 1. */
  lemma IdsAreUnique(seed: bv64, i: nat, j: nat, k: nat, l: nat)
    requires i < j < TWO64 && k < l < TWO64
    requires NthId(seed, i) == NthId(seed, j) && NthId(seed, k) == NthId(seed, l)
    ensures i == k && j == l && NthId(seed, i) == 1
  {
    var m := (a: nat) => MixAt(seed, a);
    forall a, b | 0 <= a < b < TWO64 ensures m(a) != m(b) { MixesDiffer(seed, a, b); }
    OnePair(m, 0, 1, TWO64, i, j, k, l);
  }

  /** The generator of one thread. */
  class Generator {
    var state: bv64
    ghost const seed: bv64
    ghost var calls: nat

    ghost predicate Valid()
      reads this
    {
      state == Times(Advance, seed, calls)
    }

    /** random: what the two draws of the random device combine to. */
    constructor (random: bv64)
      ensures Valid() && calls == 0 && seed == (if random != 0 then random else GAMMA)
    {
      var s := if random != 0 then random else GAMMA;
      state := s;
      seed := s;
      calls := 0;
    }

    method NextId() returns (id: bv64)
      requires Valid()
      modifies this
      ensures Valid() && calls == old(calls) + 1
      ensures id == NthId(seed, calls) && id != 0
    {
      state := Advance(state);
      calls := calls + 1;
      var z := state;
      z := Scale1(Fold30(z));
      z := Scale2(Fold27(z));
      z := Fold31(z);
      id := if z != 0 then z else 1;
    }
  }
}
