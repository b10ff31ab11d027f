/**
 Repeated application of one function, and counting on words of which only the successor, the half and the parity
 are known. The words are abstract here; IdGenerator supplies 64-bit ones.
 */
module Cycles {

  function Times<T>(f: T -> T, x: T, k: nat): T {
    if k == 0 then x else f(Times(f, x, k - 1))
  }

  /** Five steps are undone by undoing each, the last one first. */
  lemma FiveUndone<T(!new)>(f: T -> T, g: T -> T, h: T -> T, i: T -> T, j: T -> T,
                            f2: T -> T, g2: T -> T, h2: T -> T, i2: T -> T, j2: T -> T, x: T)
    requires forall y :: f2(f(y)) == y
    requires forall y :: g2(g(y)) == y
    requires forall y :: h2(h(y)) == y
    requires forall y :: i2(i(y)) == y
    requires forall y :: j2(j(y)) == y
    ensures f2(g2(h2(i2(j2(j(i(h(g(f(x)))))))))) == x
  {
  }

  function Power2(w: nat): nat {
    if w == 0 then 1 else 2 * Power2(w - 1)
  }

  /** If phi turns steps of f into steps of g, it turns the orbits of f into those of g. */
  lemma {:induction false} Conjugate<T(!new)>(f: T -> T, g: T -> T, phi: T -> T, x: T, k: nat)
    requires forall y :: phi(f(y)) == g(phi(y))
    ensures phi(Times(f, x, k)) == Times(g, phi(x), k)
  {
    if k > 0 { Conjugate(f, g, phi, x, k - 1); }
  }

  /** The number that the low w bits of a word denote. */
  function Val<T>(half: T -> T, odd: T -> bool, x: T, w: nat): nat {
    if w == 0 then 0 else 2 * Val(half, odd, half(x), w - 1) + (if odd(x) then 1 else 0)
  }

  function Halved<T>(half: T -> T, x: T, w: nat): T {
    if w == 0 then x else Halved(half, half(x), w - 1)
  }

  /** Every one of the low w bits is set. */
  predicate AllSet<T>(half: T -> T, odd: T -> bool, x: T, w: nat) {
    w == 0 || (odd(x) && AllSet(half, odd, half(x), w - 1))
  }

  /** Addition of one, bit by bit. */
  ghost predicate Counts<T(!new)>(inc: T -> T, half: T -> T, odd: T -> bool, zero: T, max: T) {
    && (forall x | !odd(x) :: odd(inc(x)) && half(inc(x)) == half(x))
    && (forall x | odd(x) && inc(x) != zero :: !odd(inc(x)) && half(inc(x)) == inc(half(x)) && inc(half(x)) != zero)
    && (forall x | inc(x) == zero :: x == max)
  }

  lemma {:induction false} ValOfAllSet<T>(half: T -> T, odd: T -> bool, x: T, w: nat)
    requires AllSet(half, odd, x, w)
    ensures Val(half, odd, x, w) == Power2(w) - 1
  {
    if w > 0 { ValOfAllSet(half, odd, half(x), w - 1); }
  }

  lemma {:induction false} ValIncrements<T(!new)>(inc: T -> T, half: T -> T, odd: T -> bool, zero: T, max: T, x: T, w: nat)
    requires Counts(inc, half, odd, zero, max)
    requires inc(x) != zero && Halved(half, inc(x), w) == zero
    ensures Val(half, odd, inc(x), w) == Val(half, odd, x, w) + 1
  {
    if w > 0 && odd(x) { ValIncrements(inc, half, odd, zero, max, half(x), w - 1); }
  }

  lemma {:induction false} ValOfZero<T(!new)>(half: T -> T, odd: T -> bool, zero: T, w: nat)
    requires !odd(zero) && half(zero) == zero
    ensures Val(half, odd, zero, w) == 0
  {
    if w > 0 { ValOfZero(half, odd, zero, w - 1); }
  }

  /** k increments of zero denote k, as long as w bits suffice. */
  lemma {:induction false} CountsUp<T(!new)>(inc: T -> T, half: T -> T, odd: T -> bool, zero: T, max: T, w: nat, k: nat)
    requires Counts(inc, half, odd, zero, max) && !odd(zero) && half(zero) == zero
    requires (forall x :: Halved(half, x, w) == zero) && AllSet(half, odd, max, w)
    requires k < Power2(w)
    ensures Val(half, odd, Times(inc, zero, k), w) == k
  {
    if k == 0 {
      ValOfZero(half, odd, zero, w);
    } else {
      CountsUp(inc, half, odd, zero, max, w, k - 1);
      var x := Times(inc, zero, k - 1);
      if inc(x) == zero {
        ValOfAllSet(half, odd, max, w);
      } else {
        ValIncrements(inc, half, odd, zero, max, x, w);
      }
    }
  }

  /** The first 2^w increments of zero are all different. */
  lemma IncrementsDiffer<T(!new)>(inc: T -> T, half: T -> T, odd: T -> bool, zero: T, max: T, w: nat, i: nat, j: nat)
    requires Counts(inc, half, odd, zero, max) && !odd(zero) && half(zero) == zero
    requires (forall x :: Halved(half, x, w) == zero) && AllSet(half, odd, max, w)
    requires i < Power2(w) && j < Power2(w) && Times(inc, zero, i) == Times(inc, zero, j)
    ensures i == j
  {
    CountsUp(inc, half, odd, zero, max, w, i);
    CountsUp(inc, half, odd, zero, max, w, j);
  }

  function Replace<T(==)>(x: T, zero: T, one: T): T {
    if x != zero then x else one
  }

  /** Of different words, replacing zero by one makes at most two equal: zero and one themselves. */
  lemma OnePair<T(!new)>(m: nat -> T, zero: T, one: T, n: nat, i: nat, j: nat, k: nat, l: nat)
    requires zero != one && i < j < n && k < l < n
    requires forall a, b | 0 <= a < b < n :: m(a) != m(b)
    requires Replace(m(i), zero, one) == Replace(m(j), zero, one)
    requires Replace(m(k), zero, one) == Replace(m(l), zero, one)
    ensures i == k && j == l && Replace(m(i), zero, one) == one
  {
    assert m(i) != m(j) && m(k) != m(l);
  }
}
