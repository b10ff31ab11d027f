/**
 The bitwise CRC loops of include/xmbase/serialization/checksum.hpp on 8- and 16-bit words, proved to compute
 remainders of GF(2) polynomials.
 */
module Checksum {
  import opened Gf2
  import opened Lfsr

  /** x^16 + x^12 + x^5 + 1 (0x1021). */
  const XMODEM := Gen(16, 12, 5)

  /** x^8 + x^5 + x^4 + 1 (0x31, reflected 0x8C). */
  const MAXIM := Gen(8, 5, 4)

  // ---- words as bit strings in transmission order ----

  /** The mask of bit k. */
  function Mask8(k: nat): bv8 {
    if k == 0 then 1 else Mask8(k - 1) << 1
  }

  function Mask16(k: nat): bv16 {
    if k == 0 then 1 else Mask16(k - 1) << 1
  }

  predicate Bit8(b: bv8, k: nat)
    requires k < 8
  {
    b & Mask8(k) != 0
  }

  predicate Bit16(c: bv16, k: nat)
    requires k < 16
  {
    c & Mask16(k) != 0
  }

  /** Most significant bit first. */
  function HighFirst(b: bv8): (s: seq<bool>)
    ensures |s| == 8
  {
    seq(8, i requires 0 <= i < 8 => Bit8(b, 7 - i))
  }

  /** Least significant bit first. */
  function LowFirst(b: bv8): (s: seq<bool>)
    ensures |s| == 8
  {
    seq(8, i requires 0 <= i < 8 => Bit8(b, i))
  }

  function Bits16(c: bv16): (s: seq<bool>)
    ensures |s| == 16
  {
    seq(16, i requires 0 <= i < 16 => Bit16(c, 15 - i))
  }

  function HighFirstBytes(data: seq<bv8>): (s: seq<seq<bool>>)
    ensures |s| == |data| && forall i | 0 <= i < |s| :: s[i] == HighFirst(data[i])
  {
    seq(|data|, i requires 0 <= i < |data| => HighFirst(data[i]))
  }

  function LowFirstBytes(data: seq<bv8>): (s: seq<seq<bool>>)
    ensures |s| == |data| && forall i | 0 <= i < |s| :: s[i] == LowFirst(data[i])
  {
    seq(|data|, i requires 0 <= i < |data| => LowFirst(data[i]))
  }

  // ---- the one-bit steps ----

  function Step16(c: bv16): bv16 {
    if c & 0x8000 != 0 then (c << 1) ^ 0x1021 else c << 1
  }

  function Step8(c: bv8): bv8 {
    if c & 1 != 0 then (c >> 1) ^ 0x8C else c >> 1
  }

  // Facts about one mask, for the bit-vector solver.

  lemma XorMask8(c: bv8, b: bv8, m: bv8)
    requires m & (m - 1) == 0
    ensures ((c ^ b) & m != 0) == ((c & m != 0) != (b & m != 0))
  {
  }

  lemma XorMask16(c: bv16, b: bv16, m: bv16)
    requires m & (m - 1) == 0
    ensures ((c ^ b) & m != 0) == ((c & m != 0) != (b & m != 0))
  {
  }

  lemma RightMask8(c: bv8, m: bv8)
    ensures ((c >> 1) & m != 0) == (c & (m << 1) != 0)
  {
  }

  predicate NextMask(m: bv16, n: bv16) {
    m & 0x8000 == 0 && n == m << 1
  }

  predicate Meets(c: bv16, m: bv16) {
    c & m != 0
  }

  lemma LeftMask16(c: bv16, m: bv16, n: bv16)
    requires NextMask(m, n)
    ensures Meets(c << 1, n) == Meets(c, m)
  {
  }

  lemma ByteMask16(b: bv8, m: bv16)
    ensures (((b as bv16) << 8) & m != 0) == (b & ((m >> 8) as bv8) != 0)
  {
  }

  lemma Masks8(k: nat)
    requires k < 8
    ensures Mask8(k) & (Mask8(k) - 1) == 0
    ensures k == 7 ==> Mask8(k) << 1 == 0
    ensures (0x8C & Mask8(k) != 0) == (k == 2 || k == 3 || k == 7)
  {
    assert Mask8(1) == 2 && Mask8(2) == 4 && Mask8(3) == 8 && Mask8(4) == 0x10;
    assert Mask8(5) == 0x20 && Mask8(6) == 0x40 && Mask8(7) == 0x80;
  }

  lemma Masks16(k: nat)
    requires k < 16
    ensures Mask16(k) & (Mask16(k) - 1) == 0
    ensures (Mask16(k) >> 8) as bv8 == if k < 8 then 0 else Mask8(k - 8)
    ensures (0x1021 & Mask16(k) != 0) == (k == 0 || k == 5 || k == 12)
  {
    assert Mask8(1) == 2 && Mask8(2) == 4 && Mask8(3) == 8 && Mask8(4) == 0x10;
    assert Mask8(5) == 0x20 && Mask8(6) == 0x40 && Mask8(7) == 0x80;
    assert Mask16(1) == 2 && Mask16(2) == 4 && Mask16(3) == 8 && Mask16(4) == 0x10;
    assert Mask16(5) == 0x20 && Mask16(6) == 0x40 && Mask16(7) == 0x80 && Mask16(8) == 0x100;
    assert Mask16(9) == 0x200 && Mask16(10) == 0x400 && Mask16(11) == 0x800 && Mask16(12) == 0x1000;
    assert Mask16(13) == 0x2000 && Mask16(14) == 0x4000 && Mask16(15) == 0x8000;
  }

  lemma Step8Bit(c: bv8, k: nat)
    requires k < 8
    ensures Bit8(Step8(c), k) == ((k < 7 && Bit8(c, k + 1)) != (Bit8(c, 0) && (k == 2 || k == 3 || k == 7)))
  {
    Masks8(k);
    RightMask8(c, Mask8(k));
    XorMask8(c >> 1, 0x8C, Mask8(k));
  }

  lemma LowMask16(k: nat)
    requires k < 15
    ensures Mask16(k) & 0x8000 == 0
  {
    assert Mask16(1) == 2 && Mask16(2) == 4 && Mask16(3) == 8 && Mask16(4) == 0x10;
    assert Mask16(5) == 0x20 && Mask16(6) == 0x40 && Mask16(7) == 0x80 && Mask16(8) == 0x100;
    assert Mask16(9) == 0x200 && Mask16(10) == 0x400 && Mask16(11) == 0x800 && Mask16(12) == 0x1000;
    assert Mask16(13) == 0x2000 && Mask16(14) == 0x4000;
  }

  lemma MaskUp16(k: nat)
    requires k >= 1 && Mask16(k - 1) & 0x8000 == 0
    ensures NextMask(Mask16(k - 1), Mask16(k))
  {
  }

  lemma LeftMeets16(c: bv16, m: bv16, n: bv16, k: nat)
    requires 1 <= k < 16 && m == Mask16(k - 1) && n == Mask16(k) && m & 0x8000 == 0
    ensures Meets(c << 1, n) == Meets(c, m)
  {
    MaskUp16(k);
    LeftMask16(c, m, n);
  }

  lemma LeftUp16Bit(c: bv16, d: bv16, k: nat)
    requires 1 <= k < 16 && Mask16(k - 1) & 0x8000 == 0 && d == c << 1
    ensures Bit16(d, k) == Bit16(c, k - 1)
  {
    LeftMeets16(c, Mask16(k - 1), Mask16(k), k);
  }

  lemma LeftClears16(c: bv16)
    ensures !Bit16(c << 1, 0)
  {
    assert (c << 1) & 1 == 0;
  }

  lemma Left16Bit(c: bv16, k: nat)
    requires k < 16
    ensures Bit16(c << 1, k) == (k > 0 && Bit16(c, k - 1))
  {
    if k == 0 {
      LeftClears16(c);
    } else {
      LowMask16(k - 1);
      LeftUp16Bit(c, c << 1, k);
    }
  }

  lemma Taps16Bit(c: bv16, k: nat)
    requires k < 16
    ensures Bit16(c ^ 0x1021, k) == (Bit16(c, k) != (k == 0 || k == 5 || k == 12))
  {
    Masks16(k);
    XorMask16(c, 0x1021, Mask16(k));
  }

  lemma TopBit16(c: bv16)
    ensures Bit16(c, 15) == (c & 0x8000 != 0)
  {
    assert Mask16(4) == 0x10 && Mask16(8) == 0x100 && Mask16(12) == 0x1000 && Mask16(15) == 0x8000;
  }

  lemma Step16Bit(c: bv16, k: nat)
    requires k < 16
    ensures Bit16(Step16(c), k) == ((k > 0 && Bit16(c, k - 1)) != (Bit16(c, 15) && (k == 0 || k == 5 || k == 12)))
  {
    TopBit16(c);
    Left16Bit(c, k);
    Taps16Bit(c << 1, k);
  }

  lemma Xor16Bit(c: bv16, b: bv8, k: nat)
    requires k < 16
    ensures Bit16(c ^ ((b as bv16) << 8), k) == (Bit16(c, k) != (k >= 8 && Bit8(b, k - 8)))
  {
    Masks16(k);
    ByteMask16(b, Mask16(k));
    XorMask16(c, (b as bv16) << 8, Mask16(k));
  }

  lemma Xor8Bit(c: bv8, b: bv8, k: nat)
    requires k < 8
    ensures Bit8(c ^ b, k) == (Bit8(c, k) != Bit8(b, k))
  {
    Masks8(k);
    XorMask8(c, b, Mask8(k));
  }

  // One tick of each register, bit by bit.

  predicate TickedBit16(r: seq<bool>, s: seq<bool>, i: nat)
    requires |r| == |s| == 16 && i < 16
  {
    s[i] == ((i < 15 && r[i + 1]) != (r[0] && (i == 15 || i == 10 || i == 3)))
  }

  predicate TickedBit8(r: seq<bool>, s: seq<bool>, i: nat)
    requires |r| == |s| == 8 && i < 8
  {
    s[i] == ((i < 7 && r[i + 1]) != (r[0] && (i == 2 || i == 3 || i == 7)))
  }

  lemma Ticked16(r: seq<bool>, s: seq<bool>)
    requires |r| == |s| == 16 && forall i | 0 <= i < 16 :: TickedBit16(r, s, i)
    ensures s == Tick(XMODEM, r)
  {
    forall i | 0 <= i < 16 ensures s[i] == Tick(XMODEM, r)[i] { assert TickedBit16(r, s, i); }
  }

  lemma Ticked8(r: seq<bool>, s: seq<bool>)
    requires |r| == |s| == 8 && forall i | 0 <= i < 8 :: TickedBit8(r, s, i)
    ensures s == Tick(MAXIM, r)
  {
    forall i | 0 <= i < 8 ensures s[i] == Tick(MAXIM, r)[i] { assert TickedBit8(r, s, i); }
  }

  lemma StepBits16(c: bv16, d: bv16, i: nat)
    requires d == Step16(c) && i < 16
    ensures TickedBit16(Bits16(c), Bits16(d), i)
  {
    Step16Bit(c, 15 - i);
  }

  lemma StepBits8(c: bv8, d: bv8, i: nat)
    requires d == Step8(c) && i < 8
    ensures TickedBit8(LowFirst(c), LowFirst(d), i)
  {
    Step8Bit(c, i);
  }

  lemma Step16IsTick(c: bv16)
    ensures Bits16(Step16(c)) == Tick(XMODEM, Bits16(c))
  {
    var d := Step16(c);
    forall i | 0 <= i < 16 ensures TickedBit16(Bits16(c), Bits16(d), i) { StepBits16(c, d, i); }
    Ticked16(Bits16(c), Bits16(d));
  }

  lemma Step8IsTick(c: bv8)
    ensures LowFirst(Step8(c)) == Tick(MAXIM, LowFirst(c))
  {
    var d := Step8(c);
    forall i | 0 <= i < 8 ensures TickedBit8(LowFirst(c), LowFirst(d), i) { StepBits8(c, d, i); }
    Ticked8(LowFirst(c), LowFirst(d));
  }

  lemma Xor16IsXorHead(c: bv16, b: bv8)
    ensures Bits16(c ^ ((b as bv16) << 8)) == XorHead(Bits16(c), HighFirst(b))
  {
    var s, t := Bits16(c ^ ((b as bv16) << 8)), XorHead(Bits16(c), HighFirst(b));
    forall i | 0 <= i < 16 ensures s[i] == t[i] { Xor16Bit(c, b, 15 - i); }
  }

  lemma Xor8IsXorHead(c: bv8, b: bv8)
    ensures LowFirst(c ^ b) == XorHead(LowFirst(c), LowFirst(b))
  {
    var s, t := LowFirst(c ^ b), XorHead(LowFirst(c), LowFirst(b));
    forall i | 0 <= i < 8 ensures s[i] == t[i] { Xor8Bit(c, b, i); }
  }

  // ---- the loops ----

  /** The register after a message, as the shift register of the generator leaves it. */
  function Register16(data: seq<bv8>): seq<bool> {
    Run(XMODEM, HighFirstBytes(data))
  }

  function Register8(data: seq<bv8>): seq<bool> {
    Run(MAXIM, LowFirstBytes(data))
  }

  ghost predicate IsCrc16(data: seq<bv8>, crc: bv16) {
    Bits16(crc) == Register16(data)
  }

  ghost predicate IsCrc8(data: seq<bv8>, crc: bv8) {
    LowFirst(crc) == Register8(data)
  }

  lemma Register16Next(data: seq<bv8>, i: nat)
    requires i < |data|
    ensures Register16(data[..i + 1]) == Ticks(XMODEM, XorHead(Register16(data[..i]), HighFirst(data[i])), 8)
  {
    assert HighFirstBytes(data[..i + 1])[..i] == HighFirstBytes(data[..i]);
  }

  lemma Register8Next(data: seq<bv8>, i: nat)
    requires i < |data|
    ensures Register8(data[..i + 1]) == Ticks(MAXIM, XorHead(Register8(data[..i]), LowFirst(data[i])), 8)
  {
    assert LowFirstBytes(data[..i + 1])[..i] == LowFirstBytes(data[..i]);
  }

  lemma ZeroBits()
    ensures Bits16(0) == Zero(16) && LowFirst(0) == Zero(8)
  {
  }

  /** The inner loop of crc16_xmodem. */
  method EightSteps16(start: bv16) returns (crc: bv16)
    ensures Bits16(crc) == Ticks(XMODEM, Bits16(start), 8)
  {
    crc := start;
    for b := 0 to 8
      invariant Bits16(crc) == Ticks(XMODEM, Bits16(start), b)
    {
      Step16IsTick(crc);
      crc := if crc & 0x8000 != 0 then (crc << 1) ^ 0x1021 else crc << 1;
    }
  }

  /** The inner loop of crc8_maxim. */
  method EightSteps8(start: bv8) returns (crc: bv8)
    ensures LowFirst(crc) == Ticks(MAXIM, LowFirst(start), 8)
  {
    crc := start;
    for b := 0 to 8
      invariant LowFirst(crc) == Ticks(MAXIM, LowFirst(start), b)
    {
      Step8IsTick(crc);
      crc := if crc & 1 != 0 then (crc >> 1) ^ 0x8C else crc >> 1;
    }
  }

  /** CRC-16/XMODEM, most significant bit first. */
  method Crc16Xmodem(data: array<bv8>) returns (crc: bv16)
    ensures IsCrc16(data[..], crc)
  {
    crc := 0;
    ZeroBits();
    for i := 0 to data.Length
      invariant IsCrc16(data[..i], crc)
    {
      Xor16IsXorHead(crc, data[i]);
      Register16Next(data[..], i);
      assert data[..][..i] == data[..i] && data[..][..i + 1] == data[..i + 1];
      crc := crc ^ ((data[i] as bv16) << 8);
      crc := EightSteps16(crc);
    }
    assert data[..data.Length] == data[..];
  }

  /** CRC-8/MAXIM-DOW, least significant bit first. */
  method Crc8Maxim(data: array<bv8>) returns (crc: bv8)
    ensures IsCrc8(data[..], crc)
  {
    crc := 0;
    ZeroBits();
    for i := 0 to data.Length
      invariant IsCrc8(data[..i], crc)
    {
      Xor8IsXorHead(crc, data[i]);
      Register8Next(data[..], i);
      assert data[..][..i] == data[..i] && data[..][..i + 1] == data[..i + 1];
      crc := crc ^ data[i];
      crc := EightSteps8(crc);
    }
    assert data[..data.Length] == data[..];
  }
}
