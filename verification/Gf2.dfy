/**
 Polynomials over GF(2), as the finite sets of the exponents whose coefficient is one, and remainders modulo a
 four-term generator. This is the arithmetic that a cyclic redundancy check is defined by.
 */
module Gf2 {
  type Poly = set<nat>

  /** The coefficient of x^e is one. */
  predicate Has(p: Poly, e: int) {
    e >= 0 && e in p
  }

  /** Coefficientwise sum: symmetric difference. */
  function Add(p: Poly, q: Poly): Poly {
    (p - q) + (q - p)
  }

  /** p times x^k. */
  function Shift(p: Poly, k: nat): Poly {
    set e | e in p :: e + k
  }

  lemma InShift(p: Poly, k: nat, e: nat)
    ensures e in Shift(p, k) <==> Has(p, e - k)
  {
    if Has(p, e - k) {
      var f: nat := e - k;
      assert f in p && f + k == e;
    }
  }

  /** The generator x^deg + x^hi + x^lo + 1. */
  datatype Gen = Gen(deg: nat, hi: nat, lo: nat) {
    predicate Valid() { 0 < lo < hi < deg }
  }

  /** q times the generator. */
  function MulG(g: Gen, q: Poly): Poly {
    Add(Add(q, Shift(q, g.lo)), Add(Shift(q, g.hi), Shift(q, g.deg)))
  }

  /** p and r differ by a multiple of the generator. */
  ghost predicate Congruent(g: Gen, p: Poly, r: Poly) {
    exists q :: p == Add(r, MulG(g, q))
  }

  predicate Below(p: Poly, n: nat) {
    forall e | e in p :: e < n
  }

  // ---- sums, shifts and multiples ----

  /** The coefficient of x^e in q times the generator. */
  predicate MulBit(g: Gen, q: Poly, e: int) {
    (Has(q, e) != Has(q, e - g.lo)) != (Has(q, e - g.hi) != Has(q, e - g.deg))
  }

  lemma InMulG(g: Gen, q: Poly, e: nat)
    ensures e in MulG(g, q) <==> MulBit(g, q, e)
  {
    InShift(q, g.lo, e);
    InShift(q, g.hi, e);
    InShift(q, g.deg, e);
  }

  lemma MulGAdd(g: Gen, p: Poly, q: Poly)
    ensures MulG(g, Add(p, q)) == Add(MulG(g, p), MulG(g, q))
  {
    forall e: nat ensures e in MulG(g, Add(p, q)) <==> e in Add(MulG(g, p), MulG(g, q)) {
      InMulG(g, p, e);
      InMulG(g, q, e);
      InMulG(g, Add(p, q), e);
    }
  }

  lemma MulBitShift(g: Gen, q: Poly, x: Poly, k: nat, e: int)
    requires forall d {:trigger Has(x, d)} :: Has(x, d) <==> Has(q, d - k)
    ensures MulBit(g, x, e) <==> MulBit(g, q, e - k)
  {
    assert e - k - g.lo == e - g.lo - k && e - k - g.hi == e - g.hi - k && e - k - g.deg == e - g.deg - k;
  }

  lemma HasMulG(g: Gen, q: Poly, e: int)
    ensures Has(MulG(g, q), e) <==> MulBit(g, q, e)
  {
    if e >= 0 { InMulG(g, q, e); }
  }

  lemma MulGShiftAt(g: Gen, q: Poly, x: Poly, k: nat, e: nat)
    requires forall d {:trigger Has(x, d)} :: Has(x, d) <==> Has(q, d - k)
    ensures Has(MulG(g, x), e) <==> Has(MulG(g, q), e - k)
  {
    HasMulG(g, x, e);
    HasMulG(g, q, e - k);
    MulBitShift(g, q, x, k, e);
  }

  lemma MulGShift(g: Gen, q: Poly, k: nat)
    ensures MulG(g, Shift(q, k)) == Shift(MulG(g, q), k)
  {
    var x := Shift(q, k);
    forall d ensures Has(x, d) <==> Has(q, d - k) { HasShift(q, k, d); }
    forall e: nat ensures e in MulG(g, x) <==> e in Shift(MulG(g, q), k) {
      MulGShiftAt(g, q, x, k, e);
      InShift(MulG(g, q), k, e);
    }
  }

  lemma HasShift(p: Poly, k: nat, e: int)
    ensures Has(Shift(p, k), e) <==> Has(p, e - k)
  {
    if e >= 0 { InShift(p, k, e); }
  }

  lemma ShiftAdd(p: Poly, q: Poly, k: nat)
    ensures Shift(Add(p, q), k) == Add(Shift(p, k), Shift(q, k))
  {
    forall e: nat ensures e in Shift(Add(p, q), k) <==> e in Add(Shift(p, k), Shift(q, k)) {
      InShift(Add(p, q), k, e);
      InShift(p, k, e);
      InShift(q, k, e);
    }
  }

  lemma CongruentRefl(g: Gen, p: Poly)
    ensures Congruent(g, p, p)
  {
    assert Shift({}, g.lo) == Shift({}, g.hi) == Shift({}, g.deg) == {};
    assert p == Add(p, MulG(g, {}));
  }

  lemma CongruentTrans(g: Gen, p: Poly, q: Poly, r: Poly)
    requires Congruent(g, p, q) && Congruent(g, q, r)
    ensures Congruent(g, p, r)
  {
    var u :| p == Add(q, MulG(g, u));
    var v :| q == Add(r, MulG(g, v));
    MulGAdd(g, u, v);
    assert p == Add(r, MulG(g, Add(u, v)));
  }

  lemma CongruentAdd(g: Gen, p: Poly, r: Poly, p': Poly, r': Poly)
    requires Congruent(g, p, r) && Congruent(g, p', r')
    ensures Congruent(g, Add(p, p'), Add(r, r'))
  {
    var u :| p == Add(r, MulG(g, u));
    var v :| p' == Add(r', MulG(g, v));
    MulGAdd(g, u, v);
    assert Add(p, p') == Add(Add(r, r'), MulG(g, Add(u, v)));
  }

  lemma CongruentShift(g: Gen, p: Poly, r: Poly, k: nat)
    requires Congruent(g, p, r)
    ensures Congruent(g, Shift(p, k), Shift(r, k))
  {
    var u :| p == Add(r, MulG(g, u));
    MulGShift(g, u, k);
    ShiftAdd(r, MulG(g, u), k);
    assert Shift(p, k) == Add(Shift(r, k), MulG(g, Shift(u, k)));
  }

  // ---- a nonzero multiple of the generator is wide ----

  lemma {:induction false} Greatest(p: Poly) returns (m: nat)
    requires p != {}
    ensures m in p && forall e | e in p :: e <= m
    decreases |p|
  {
    var x :| x in p;
    if p == {x} {
      m := x;
    } else {
      var y := Greatest(p - {x});
      m := if x < y then y else x;
      assert forall e | e in p :: e == x || e in p - {x};
    }
  }

  lemma {:induction false} Least(p: Poly) returns (m: nat)
    requires p != {}
    ensures m in p && forall e | e in p :: m <= e
    decreases |p|
  {
    var x :| x in p;
    if p == {x} {
      m := x;
    } else {
      var y := Least(p - {x});
      m := if x < y then x else y;
      assert forall e | e in p :: e == x || e in p - {x};
    }
  }

  /** The lowest and the highest term of a nonzero multiple are at least the generator's degree apart. */
  lemma MultipleIsWide(g: Gen, q: Poly) returns (low: nat, high: nat)
    requires g.Valid() && q != {}
    ensures low in MulG(g, q) && high in MulG(g, q) && low + g.deg <= high
  {
    low := Least(q);
    var m := Greatest(q);
    high := m + g.deg;
    InMulG(g, q, low);
    InMulG(g, q, high);
  }

  /** Remainders of degree below the generator's are unique. */
  lemma RemainderUnique(g: Gen, p: Poly, r: Poly, r': Poly)
    requires g.Valid() && Congruent(g, p, r) && Congruent(g, p, r') && Below(r, g.deg) && Below(r', g.deg)
    ensures r == r'
  {
    var u :| p == Add(r, MulG(g, u));
    var v :| p == Add(r', MulG(g, v));
    MulGAdd(g, u, v);
    assert Add(r, r') == MulG(g, Add(u, v));
    if Add(u, v) != {} {
      var low, high := MultipleIsWide(g, Add(u, v));
      assert false;
    } else {
      CongruentRefl(g, {});
      assert MulG(g, {}) == {};
      assert Add(r, r') == {};
      forall e ensures e in r <==> e in r' { assert e !in Add(r, r'); }
    }
  }

  // ---- parity ----

  lemma AddSize(p: Poly, q: Poly)
    ensures |Add(p, q)| % 2 == (|p| + |q|) % 2
  {
    assert p == (p - q) + p * q && q == (q - p) + p * q;
    assert |p| == |p - q| + |p * q| && |q| == |q - p| + |p * q| && |Add(p, q)| == |p - q| + |q - p|;
  }

  lemma AddSizeEven(p: Poly, q: Poly)
    requires |q| % 2 == 0
    ensures |Add(p, q)| % 2 == |p| % 2
  {
    AddSize(p, q);
  }

  lemma AddSizeSame(p: Poly, q: Poly)
    requires |p| == |q|
    ensures |Add(p, q)| % 2 == 0
  {
    AddSize(p, q);
  }

  lemma {:induction false} ShiftSize(p: Poly, k: nat)
    ensures |Shift(p, k)| == |p|
    decreases |p|
  {
    if p != {} {
      var x :| x in p;
      ShiftSize(p - {x}, k);
      forall e: nat ensures e in Shift(p, k) <==> e in Shift(p - {x}, k) + {x + k} {
        InShift(p - {x}, k, e);
        InShift(p, k, e);
      }
      InShift(p - {x}, k, x + k);
      assert Shift(p, k) == Shift(p - {x}, k) + {x + k};
    }
  }

  /** Four terms: every multiple of the generator has an even number of them. */
  lemma MultipleIsEven(g: Gen, q: Poly)
    ensures |MulG(g, q)| % 2 == 0
  {
    ShiftSize(q, g.lo);
    ShiftSize(q, g.hi);
    ShiftSize(q, g.deg);
    AddSizeSame(q, Shift(q, g.lo));
    AddSizeSame(Shift(q, g.hi), Shift(q, g.deg));
    AddSizeEven(Add(q, Shift(q, g.lo)), Add(Shift(q, g.hi), Shift(q, g.deg)));
  }

  lemma CongruentParity(g: Gen, p: Poly, r: Poly)
    requires Congruent(g, p, r)
    ensures |p| % 2 == |r| % 2
  {
    var u :| p == Add(r, MulG(g, u));
    MultipleIsEven(g, u);
    AddSizeEven(r, MulG(g, u));
  }

  // ---- bit strings as polynomials, first bit highest ----

  predicate Coefficient(bits: seq<bool>, e: nat) {
    e < |bits| && bits[|bits| - 1 - e]
  }

  function PolyOf(bits: seq<bool>): Poly {
    set e: nat | e < |bits| && Coefficient(bits, e)
  }

  lemma PolyOfConcat(a: seq<bool>, b: seq<bool>)
    ensures PolyOf(a + b) == Add(Shift(PolyOf(a), |b|), PolyOf(b))
  {
    forall e: nat ensures e in PolyOf(a + b) <==> e in Add(Shift(PolyOf(a), |b|), PolyOf(b)) {
      InShift(PolyOf(a), |b|, e);
    }
  }

  /** The positions at which two bit strings differ. */
  function Flips(a: seq<bool>, b: seq<bool>): set<nat> {
    set t: nat | t < |a| && t < |b| && a[t] != b[t]
  }

  /** Mirror image of a set of positions below n. */
  function Mirror(f: set<nat>, n: nat): Poly
    requires Below(f, n)
  {
    set t | t in f :: n - 1 - t
  }

  lemma InMirror(f: set<nat>, n: nat, e: nat)
    requires Below(f, n)
    ensures e in Mirror(f, n) <==> e < n && Has(f, n - 1 - e)
  {
    if e < n && Has(f, n - 1 - e) {
      var t: nat := n - 1 - e;
      assert t in f && n - 1 - t == e;
    }
  }

  lemma {:induction false} MirrorSize(f: set<nat>, n: nat)
    requires Below(f, n)
    ensures |Mirror(f, n)| == |f|
    decreases |f|
  {
    if f != {} {
      var x :| x in f;
      MirrorSize(f - {x}, n);
      forall e: nat ensures e in Mirror(f, n) <==> e in Mirror(f - {x}, n) + {n - 1 - x} {
        InMirror(f - {x}, n, e);
        InMirror(f, n, e);
      }
      InMirror(f - {x}, n, n - 1 - x);
      assert Mirror(f, n) == Mirror(f - {x}, n) + {n - 1 - x};
    }
  }

  lemma FlipsArePolySum(a: seq<bool>, b: seq<bool>)
    requires |a| == |b|
    ensures Below(Flips(a, b), |a|)
    ensures Add(PolyOf(a), PolyOf(b)) == Mirror(Flips(a, b), |a|)
    ensures |Add(PolyOf(a), PolyOf(b))| == |Flips(a, b)|
  {
    forall e: nat ensures e in Add(PolyOf(a), PolyOf(b)) <==> e in Mirror(Flips(a, b), |a|) {
      InMirror(Flips(a, b), |a|, e);
    }
    assert Add(PolyOf(a), PolyOf(b)) == Mirror(Flips(a, b), |a|);
    MirrorSize(Flips(a, b), |a|);
  }
}
