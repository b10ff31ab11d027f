/** Positions of a ring of n cells: position p lives in cell p % n, and comes round every n positions. */
module Laps {

  lemma MulBounds(n: int, d: int)
    requires n >= 0
    ensures d >= 1 ==> n * d >= n
    ensures d <= -1 ==> n * d <= -n
  {
  }

  lemma ModIs(n: nat, x: nat, q: nat, r: nat)
    requires n >= 1 && x == n * q + r && r < n
    ensures x % n == r && x / n == q
  {
    var d := q - x / n;
    assert x == n * (x / n) + x % n;
    assert n * d == n * q - n * (x / n);
    MulBounds(n, d);
  }

  /** The next position of a cell is one lap later. */
  lemma NextLap(n: nat, p: nat)
    requires n >= 1
    ensures (p + n) % n == p % n && (p + n) / n == p / n + 1
  {
    assert p == n * (p / n) + p % n;
    assert n * (p / n + 1) == n * (p / n) + n;
    ModIs(n, p + n, p / n + 1, p % n);
  }

  /** Two positions of one cell are at least a lap apart. */
  lemma SameCellApart(n: nat, p: nat, q: nat)
    requires n >= 1 && p % n == q % n && p < q
    ensures p + n <= q
  {
    assert p == n * (p / n) + p % n && q == n * (q / n) + q % n;
    assert n * (q / n - p / n) == n * (q / n) - n * (p / n);
    MulBounds(n, q / n - p / n);
  }

  /** The newest position up to c that shares the cell of p. */
  lemma {:induction false} NewestInCell(n: nat, p: nat, c: nat) returns (q: nat)
    requires n >= 1 && p <= c
    ensures c < q + n && p <= q <= c && q % n == p % n
    decreases c - p
  {
    if c < p + n {
      q := p;
    } else {
      NextLap(n, p);
      q := NewestInCell(n, p + n, c);
    }
  }
}
