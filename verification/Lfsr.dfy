/**
 A bit-serial shift register that divides by a generator, and the remainder theorem that relates it to polynomial
 arithmetic. Registers and messages are bit strings whose first bit is the highest coefficient.
 */
module Lfsr {
  import opened Gf2

  /** Multiply by x and reduce: drop the first bit, and add the generator's lower terms if it was set. */
  function Tick(g: Gen, r: seq<bool>): (s: seq<bool>)
    requires g.Valid() && |r| == g.deg
    ensures |s| == g.deg
  {
    seq(g.deg, i requires 0 <= i < g.deg =>
      if i == g.deg - 1 then r[0] else r[i + 1] != (r[0] && (i == g.deg - 1 - g.hi || i == g.deg - 1 - g.lo)))
  }

  function Ticks(g: Gen, r: seq<bool>, n: nat): (s: seq<bool>)
    requires g.Valid() && |r| == g.deg
    ensures |s| == g.deg
  {
    if n == 0 then r else Tick(g, Ticks(g, r, n - 1))
  }

  /** Add the bits b to the first |b| bits of the register. */
  function XorHead(r: seq<bool>, b: seq<bool>): (s: seq<bool>)
    requires |b| <= |r|
    ensures |s| == |r|
  {
    seq(|r|, i requires 0 <= i < |r| => r[i] != (i < |b| && b[i]))
  }

  function Feed(g: Gen, r: seq<bool>, b: seq<bool>): (s: seq<bool>)
    requires g.Valid() && |r| == g.deg && |b| <= g.deg
    ensures |s| == g.deg
  {
    Ticks(g, XorHead(r, b), |b|)
  }

  predicate Chunks(g: Gen, bytes: seq<seq<bool>>) {
    forall i | 0 <= i < |bytes| :: |bytes[i]| <= g.deg
  }

  function Zero(n: nat): (z: seq<bool>)
    ensures |z| == n
  {
    seq(n, _ => false)
  }

  function Run(g: Gen, bytes: seq<seq<bool>>): (s: seq<bool>)
    requires g.Valid() && Chunks(g, bytes)
    ensures |s| == g.deg
  {
    if bytes == [] then Zero(g.deg)
    else Feed(g, Run(g, bytes[..|bytes| - 1]), bytes[|bytes| - 1])
  }

  function Concat(bytes: seq<seq<bool>>): seq<bool> {
    if bytes == [] then [] else Concat(bytes[..|bytes| - 1]) + bytes[|bytes| - 1]
  }

  /** One tick is multiplication by x modulo the generator. */
  lemma TickIsTimesX(g: Gen, r: seq<bool>)
    requires g.Valid() && |r| == g.deg
    ensures Congruent(g, Shift(PolyOf(r), 1), PolyOf(Tick(g, r)))
  {
    var q: Poly := if r[0] then {0} else {};
    var p, s := PolyOf(r), PolyOf(Tick(g, r));
    forall e: nat ensures e in Shift(p, 1) <==> e in Add(s, MulG(g, q)) {
      InShift(p, 1, e);
      InMulG(g, q, e);
    }
    assert Shift(p, 1) == Add(s, MulG(g, q));
  }

  lemma ShiftShift(p: Poly, j: nat, k: nat)
    ensures Shift(Shift(p, j), k) == Shift(p, j + k)
  {
    forall e: nat ensures e in Shift(Shift(p, j), k) <==> e in Shift(p, j + k) {
      InShift(Shift(p, j), k, e);
      InShift(p, j + k, e);
      HasShift(p, j, e - k);
    }
  }

  lemma ShiftNone(p: Poly)
    ensures Shift(p, 0) == p
  {
    forall e: nat ensures e in Shift(p, 0) <==> e in p { InShift(p, 0, e); }
  }

  lemma TickAfter(g: Gen, p: Poly, r: seq<bool>, n: nat)
    requires g.Valid() && |r| == g.deg && Congruent(g, Shift(p, n), PolyOf(r))
    ensures Congruent(g, Shift(p, n + 1), PolyOf(Tick(g, r)))
  {
    CongruentShift(g, Shift(p, n), PolyOf(r), 1);
    ShiftShift(p, n, 1);
    TickIsTimesX(g, r);
    CongruentTrans(g, Shift(p, n + 1), Shift(PolyOf(r), 1), PolyOf(Tick(g, r)));
  }

  lemma {:induction false} TicksAreTimesXN(g: Gen, r: seq<bool>, n: nat)
    requires g.Valid() && |r| == g.deg
    ensures Congruent(g, Shift(PolyOf(r), n), PolyOf(Ticks(g, r, n)))
  {
    if n == 0 {
      ShiftNone(PolyOf(r));
      CongruentRefl(g, PolyOf(r));
    } else {
      TicksAreTimesXN(g, r, n - 1);
      TickAfter(g, PolyOf(r), Ticks(g, r, n - 1), n - 1);
    }
  }

  lemma XorHeadAdds(r: seq<bool>, b: seq<bool>)
    requires |b| <= |r|
    ensures PolyOf(XorHead(r, b)) == Add(PolyOf(r), Shift(PolyOf(b), |r| - |b|))
  {
    var k: nat := |r| - |b|;
    forall e: nat ensures e in PolyOf(XorHead(r, b)) <==> e in Add(PolyOf(r), Shift(PolyOf(b), k)) {
      InShift(PolyOf(b), k, e);
      if e < |r| {
        var i := |r| - 1 - e;
        assert XorHead(r, b)[i] == (r[i] != (i < |b| && b[i]));
        assert i < |b| <==> e >= k;
        if e >= k { assert |b| - 1 - (e - k) == i; }
      }
    }
  }

  /** The register holds the remainder of the message times x^deg. */
  lemma {:induction false} RunIsRemainder(g: Gen, bytes: seq<seq<bool>>)
    requires g.Valid() && Chunks(g, bytes)
    ensures Congruent(g, Shift(PolyOf(Concat(bytes)), g.deg), PolyOf(Run(g, bytes)))
  {
    if bytes == [] {
      assert PolyOf(Concat(bytes)) == {} && PolyOf(Run(g, bytes)) == {};
      assert Shift({}, g.deg) == {};
      CongruentRefl(g, {});
    } else {
      var init, b := bytes[..|bytes| - 1], bytes[|bytes| - 1];
      var m, r, n := PolyOf(Concat(init)), Run(g, init), |b|;
      RunIsRemainder(g, init);
      FeedIsRemainder(g, m, r, b);
      PolyOfConcat(Concat(init), b);
    }
  }

  /** (m x^n + byte) x^d == (m x^d + byte x^(d-n)) x^n */
  lemma Redistribute(m: Poly, byte: Poly, n: nat, d: nat)
    requires n <= d
    ensures Shift(Add(Shift(m, n), byte), d) == Shift(Add(Shift(m, d), Shift(byte, d - n)), n)
  {
    var k: nat := d - n;
    var low, whole := Shift(byte, k), Shift(byte, d);
    ShiftAdd(Shift(m, n), byte, d);
    ShiftAdd(Shift(m, d), low, n);
    ShiftShift(m, n, d);
    ShiftShift(m, d, n);
    ShiftShift(byte, k, n);
  }

  lemma SumIsCongruent(g: Gen, p: Poly, r: Poly, low: Poly, x: Poly, n: nat)
    requires g.Valid() && Congruent(g, p, r) && x == Add(r, low)
    ensures Congruent(g, Shift(Add(p, low), n), Shift(x, n))
  {
    CongruentRefl(g, low);
    CongruentAdd(g, p, r, low, low);
    CongruentShift(g, Add(p, low), x, n);
  }

  lemma XorIsCongruent(g: Gen, p: Poly, r: seq<bool>, b: seq<bool>, n: nat)
    requires g.Valid() && |r| == g.deg && |b| <= g.deg && Congruent(g, p, PolyOf(r))
    ensures Congruent(g, Shift(Add(p, Shift(PolyOf(b), g.deg - |b|)), n), Shift(PolyOf(XorHead(r, b)), n))
  {
    XorHeadAdds(r, b);
    SumIsCongruent(g, p, PolyOf(r), Shift(PolyOf(b), g.deg - |b|), PolyOf(XorHead(r, b)), n);
  }

  lemma ThenTicks(g: Gen, p: Poly, p': Poly, x: seq<bool>, n: nat)
    requires g.Valid() && |x| == g.deg && Congruent(g, p, Shift(PolyOf(x), n)) && p' == p
    ensures Congruent(g, p', PolyOf(Ticks(g, x, n)))
  {
    TicksAreTimesXN(g, x, n);
    CongruentTrans(g, p, Shift(PolyOf(x), n), PolyOf(Ticks(g, x, n)));
  }

  lemma FeedIsRemainder(g: Gen, m: Poly, r: seq<bool>, b: seq<bool>)
    requires g.Valid() && |r| == g.deg && |b| <= g.deg && Congruent(g, Shift(m, g.deg), PolyOf(r))
    ensures Congruent(g, Shift(Add(Shift(m, |b|), PolyOf(b)), g.deg), PolyOf(Feed(g, r, b)))
  {
    var before := Shift(Add(Shift(m, g.deg), Shift(PolyOf(b), g.deg - |b|)), |b|);
    var after := Shift(Add(Shift(m, |b|), PolyOf(b)), g.deg);
    Redistribute(m, PolyOf(b), |b|, g.deg);
    XorIsCongruent(g, Shift(m, g.deg), r, b, |b|);
    ThenTicks(g, before, after, XorHead(r, b), |b|);
  }

  lemma RegisterBelow(g: Gen, r: seq<bool>)
    requires |r| == g.deg
    ensures Below(PolyOf(r), g.deg)
  {
  }

  lemma PolyOfInjective(a: seq<bool>, b: seq<bool>)
    requires |a| == |b| && PolyOf(a) == PolyOf(b)
    ensures a == b
  {
    forall i | 0 <= i < |a| ensures a[i] == b[i] {
      var e: nat := |a| - 1 - i;
      assert e in PolyOf(a) <==> Coefficient(a, e);
      assert e in PolyOf(b) <==> Coefficient(b, e);
    }
  }

  // ---- error detection ----

  /** If two messages of one length get the same register, their difference is a multiple of the generator. */
  lemma CollisionIsMultiple(g: Gen, a: seq<seq<bool>>, b: seq<seq<bool>>) returns (q: Poly)
    requires g.Valid() && Chunks(g, a) && Chunks(g, b) && Run(g, a) == Run(g, b)
    ensures Shift(Add(PolyOf(Concat(a)), PolyOf(Concat(b))), g.deg) == MulG(g, q)
  {
    var p, p' := PolyOf(Concat(a)), PolyOf(Concat(b));
    var r := PolyOf(Run(g, a));
    RunIsRemainder(g, a);
    RunIsRemainder(g, b);
    CongruentAdd(g, Shift(p, g.deg), r, Shift(p', g.deg), r);
    ShiftAdd(p, p', g.deg);
    assert Add(r, r) == {};
    q :| Shift(Add(p, p'), g.deg) == Add({}, MulG(g, q));
    assert Add({}, MulG(g, q)) == MulG(g, q);
  }

  /** Flips within n consecutive positions make a difference polynomial narrower than n, wherever it is shifted. */
  lemma FlipsAreNarrow(x: seq<bool>, y: seq<bool>, s: nat, n: nat, k: nat)
    requires |x| == |y| && forall t | t in Flips(x, y) :: s <= t < s + n
    ensures forall low, high | low in Shift(Add(PolyOf(x), PolyOf(y)), k) && high in Shift(Add(PolyOf(x), PolyOf(y)), k) ::
              high < low + n
  {
    var d := Add(PolyOf(x), PolyOf(y));
    FlipsArePolySum(x, y);
    forall e | e in Shift(d, k) ensures k <= e < k + |x| && |x| - 1 - (e - k) in Flips(x, y) {
      InShift(d, k, e);
      InMirror(Flips(x, y), |x|, e - k);
    }
  }

  lemma EqualIfNoDifference(x: seq<bool>, y: seq<bool>, k: nat)
    requires |x| == |y| && Shift(Add(PolyOf(x), PolyOf(y)), k) == {}
    ensures x == y
  {
    var d := Add(PolyOf(x), PolyOf(y));
    forall e: nat ensures e !in d { InShift(d, k, e + k); }
    forall e: nat ensures e in PolyOf(x) <==> e in PolyOf(y) { assert e !in d; }
    PolyOfInjective(x, y);
  }

  /** Flips confined to deg consecutive transmitted bits always change the register. */
  lemma BurstDetected(g: Gen, a: seq<seq<bool>>, b: seq<seq<bool>>, s: nat)
    requires g.Valid() && Chunks(g, a) && Chunks(g, b) && |Concat(a)| == |Concat(b)| && Concat(a) != Concat(b)
    requires forall t | t in Flips(Concat(a), Concat(b)) :: s <= t < s + g.deg
    ensures Run(g, a) != Run(g, b)
  {
    if Run(g, a) == Run(g, b) {
      var q := CollisionIsMultiple(g, a, b);
      FlipsAreNarrow(Concat(a), Concat(b), s, g.deg, g.deg);
      if q == {} {
        forall e: nat ensures e !in MulG(g, {}) { InMulG(g, {}, e); }
        EqualIfNoDifference(Concat(a), Concat(b), g.deg);
      } else {
        var low, high := MultipleIsWide(g, q);
      }
    }
  }

  /** An odd number of flips always changes the register. */
  lemma OddFlipsDetected(g: Gen, a: seq<seq<bool>>, b: seq<seq<bool>>)
    requires g.Valid() && Chunks(g, a) && Chunks(g, b) && |Concat(a)| == |Concat(b)|
    requires |Flips(Concat(a), Concat(b))| % 2 == 1
    ensures Run(g, a) != Run(g, b)
  {
    if Run(g, a) == Run(g, b) {
      var q := CollisionIsMultiple(g, a, b);
      FlipsArePolySum(Concat(a), Concat(b));
      ShiftSize(Add(PolyOf(Concat(a)), PolyOf(Concat(b))), g.deg);
      MultipleIsEven(g, q);
    }
  }

  /** Appending the register to the message leaves the register zero. */
  lemma ResidueIsZero(g: Gen, a: seq<seq<bool>>, tail: seq<seq<bool>>)
    requires g.Valid() && Chunks(g, a) && Chunks(g, a + tail) && Concat(a + tail) == Concat(a) + Run(g, a)
    ensures Run(g, a + tail) == Zero(g.deg)
  {
    var m, r := PolyOf(Concat(a)), PolyOf(Run(g, a));
    RunIsRemainder(g, a);
    RunIsRemainder(g, a + tail);
    PolyOfConcat(Concat(a), Run(g, a));
    var whole := Add(Shift(m, g.deg), r);
    CongruentRefl(g, r);
    CongruentAdd(g, Shift(m, g.deg), r, r, r);
    assert Add(r, r) == {};
    CongruentShift(g, whole, {}, g.deg);
    assert Shift({}, g.deg) == {};
    RegisterBelow(g, Run(g, a + tail));
    RemainderUnique(g, Shift(whole, g.deg), PolyOf(Run(g, a + tail)), {});
    assert PolyOf(Zero(g.deg)) == {};
    PolyOfInjective(Run(g, a + tail), Zero(g.deg));
  }
}
