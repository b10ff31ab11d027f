/**
 What the two CRCs promise: they are the remainders that define them, appending one gives a zero residue, and they
 detect every burst no longer than the register and every odd number of flipped bits.
 */
module ChecksumLaws {
  import opened Gf2
  import opened Lfsr
  import opened Checksum

  /** The bits of a buffer in the order in which CRC-16/XMODEM takes them. */
  function Transmitted16(data: seq<bv8>): seq<bool> {
    Concat(HighFirstBytes(data))
  }

  function Transmitted8(data: seq<bv8>): seq<bool> {
    Concat(LowFirstBytes(data))
  }

  /** Concatenated octets: bit j of octet i is bit 8i + j. */
  lemma {:induction false} OctetsInOrder(bytes: seq<seq<bool>>)
    requires forall i | 0 <= i < |bytes| :: |bytes[i]| == 8
    ensures |Concat(bytes)| == 8 * |bytes|
    ensures forall i, j {:trigger bytes[i][j]} | 0 <= i < |bytes| && 0 <= j < 8 :: Concat(bytes)[8 * i + j] == bytes[i][j]
  {
    if bytes != [] {
      OctetsInOrder(bytes[..|bytes| - 1]);
    }
  }

  lemma {:induction false} OctetsDetermine(a: seq<seq<bool>>, b: seq<seq<bool>>)
    requires |a| == |b| && Concat(a) == Concat(b)
    requires forall i | 0 <= i < |a| :: |a[i]| == |b[i]| == 8
    ensures a == b
  {
    OctetsInOrder(a);
    OctetsInOrder(b);
    forall i | 0 <= i < |a| ensures a[i] == b[i] {
      forall j | 0 <= j < 8 ensures a[i][j] == b[i][j] {}
    }
  }

  lemma {:induction false} ConcatAppend(a: seq<seq<bool>>, b: seq<seq<bool>>)
    ensures Concat(a + b) == Concat(a) + Concat(b)
    decreases |b|
  {
    if b == [] {
      assert a + b == a;
    } else {
      var front, last := b[..|b| - 1], b[|b| - 1];
      assert (a + b)[..|a + b| - 1] == a + front;
      ConcatAppend(a, front);
      Regroup(Concat(a), Concat(front), last);
    }
  }

  lemma Regroup(x: seq<bool>, y: seq<bool>, z: seq<bool>)
    ensures x + y + z == x + (y + z)
  {
  }

  // ---- words and their bits ----

  lemma NoBits8(x: bv8)
    requires forall k | 0 <= k < 8 :: !Bit8(x, k)
    ensures x == 0
  {
    assert Mask8(1) == 2 && Mask8(2) == 4 && Mask8(3) == 8 && Mask8(4) == 0x10;
    assert Mask8(5) == 0x20 && Mask8(6) == 0x40 && Mask8(7) == 0x80;
    assert !Bit8(x, 0) && !Bit8(x, 1) && !Bit8(x, 2) && !Bit8(x, 3);
    assert !Bit8(x, 4) && !Bit8(x, 5) && !Bit8(x, 6) && !Bit8(x, 7);
  }

  lemma SameBits8(a: bv8, b: bv8)
    requires forall k | 0 <= k < 8 :: Bit8(a, k) == Bit8(b, k)
    ensures a == b
  {
    var x := a ^ b;
    forall k | 0 <= k < 8 ensures !Bit8(x, k) { Xor8Bit(a, b, k); }
    NoBits8(x);
    XorZero8(a, b);
  }

  lemma XorZero8(a: bv8, b: bv8)
    requires a ^ b == 0
    ensures a == b
  {
  }

  lemma HighFirstInjective(a: bv8, b: bv8)
    requires HighFirst(a) == HighFirst(b)
    ensures a == b
  {
    forall k | 0 <= k < 8 ensures Bit8(a, k) == Bit8(b, k) { assert HighFirst(a)[7 - k] == HighFirst(b)[7 - k]; }
    SameBits8(a, b);
  }

  lemma LowFirstInjective(a: bv8, b: bv8)
    requires LowFirst(a) == LowFirst(b)
    ensures a == b
  {
    forall k | 0 <= k < 8 ensures Bit8(a, k) == Bit8(b, k) { assert LowFirst(a)[k] == LowFirst(b)[k]; }
    SameBits8(a, b);
  }

  lemma Transmitted16Injective(a: seq<bv8>, b: seq<bv8>)
    requires |a| == |b| && Transmitted16(a) == Transmitted16(b)
    ensures a == b
  {
    OctetsDetermine(HighFirstBytes(a), HighFirstBytes(b));
    forall i | 0 <= i < |a| ensures a[i] == b[i] {
      assert HighFirstBytes(a)[i] == HighFirstBytes(b)[i];
      HighFirstInjective(a[i], b[i]);
    }
  }

  lemma Transmitted8Injective(a: seq<bv8>, b: seq<bv8>)
    requires |a| == |b| && Transmitted8(a) == Transmitted8(b)
    ensures a == b
  {
    OctetsDetermine(LowFirstBytes(a), LowFirstBytes(b));
    forall i | 0 <= i < |a| ensures a[i] == b[i] {
      assert LowFirstBytes(a)[i] == LowFirstBytes(b)[i];
      LowFirstInjective(a[i], b[i]);
    }
  }

  // ---- the defining remainder ----

  /** The CRC is the one word whose polynomial is congruent to the message times x^16. */
  lemma Crc16IsRemainder(data: seq<bv8>, crc: bv16)
    ensures IsCrc16(data, crc) <==> Congruent(XMODEM, Shift(PolyOf(Transmitted16(data)), 16), PolyOf(Bits16(crc)))
  {
    RunIsRemainder(XMODEM, HighFirstBytes(data));
    if Congruent(XMODEM, Shift(PolyOf(Transmitted16(data)), 16), PolyOf(Bits16(crc))) {
      RegisterBelow(XMODEM, Bits16(crc));
      RegisterBelow(XMODEM, Register16(data));
      RemainderUnique(XMODEM, Shift(PolyOf(Transmitted16(data)), 16), PolyOf(Bits16(crc)), PolyOf(Register16(data)));
      PolyOfInjective(Bits16(crc), Register16(data));
    }
  }

  lemma Crc8IsRemainder(data: seq<bv8>, crc: bv8)
    ensures IsCrc8(data, crc) <==> Congruent(MAXIM, Shift(PolyOf(Transmitted8(data)), 8), PolyOf(LowFirst(crc)))
  {
    RunIsRemainder(MAXIM, LowFirstBytes(data));
    if Congruent(MAXIM, Shift(PolyOf(Transmitted8(data)), 8), PolyOf(LowFirst(crc))) {
      RegisterBelow(MAXIM, LowFirst(crc));
      RegisterBelow(MAXIM, Register8(data));
      RemainderUnique(MAXIM, Shift(PolyOf(Transmitted8(data)), 8), PolyOf(LowFirst(crc)), PolyOf(Register8(data)));
      PolyOfInjective(LowFirst(crc), Register8(data));
    }
  }

  // ---- error detection ----

  /** Buffers that differ only within 16 consecutive transmitted bits have different CRCs. */
  lemma Crc16DetectsBursts(a: seq<bv8>, b: seq<bv8>, crcA: bv16, crcB: bv16, s: nat)
    requires |a| == |b| && a != b && IsCrc16(a, crcA) && IsCrc16(b, crcB)
    requires forall t | t in Flips(Transmitted16(a), Transmitted16(b)) :: s <= t < s + 16
    ensures crcA != crcB
  {
    OctetsInOrder(HighFirstBytes(a));
    OctetsInOrder(HighFirstBytes(b));
    if Transmitted16(a) == Transmitted16(b) { Transmitted16Injective(a, b); }
    BurstDetected(XMODEM, HighFirstBytes(a), HighFirstBytes(b), s);
  }

  /** Buffers that differ only within 8 consecutive transmitted bits have different CRCs. */
  lemma Crc8DetectsBursts(a: seq<bv8>, b: seq<bv8>, crcA: bv8, crcB: bv8, s: nat)
    requires |a| == |b| && a != b && IsCrc8(a, crcA) && IsCrc8(b, crcB)
    requires forall t | t in Flips(Transmitted8(a), Transmitted8(b)) :: s <= t < s + 8
    ensures crcA != crcB
  {
    OctetsInOrder(LowFirstBytes(a));
    OctetsInOrder(LowFirstBytes(b));
    if Transmitted8(a) == Transmitted8(b) { Transmitted8Injective(a, b); }
    BurstDetected(MAXIM, LowFirstBytes(a), LowFirstBytes(b), s);
  }

  /** An odd number of flipped bits, wherever they are, changes the CRC. */
  lemma Crc16DetectsOddFlips(a: seq<bv8>, b: seq<bv8>, crcA: bv16, crcB: bv16)
    requires |a| == |b| && IsCrc16(a, crcA) && IsCrc16(b, crcB)
    requires |Flips(Transmitted16(a), Transmitted16(b))| % 2 == 1
    ensures crcA != crcB
  {
    OctetsInOrder(HighFirstBytes(a));
    OctetsInOrder(HighFirstBytes(b));
    OddFlipsDetected(XMODEM, HighFirstBytes(a), HighFirstBytes(b));
  }

  lemma Crc8DetectsOddFlips(a: seq<bv8>, b: seq<bv8>, crcA: bv8, crcB: bv8)
    requires |a| == |b| && IsCrc8(a, crcA) && IsCrc8(b, crcB)
    requires |Flips(Transmitted8(a), Transmitted8(b))| % 2 == 1
    ensures crcA != crcB
  {
    OctetsInOrder(LowFirstBytes(a));
    OctetsInOrder(LowFirstBytes(b));
    OddFlipsDetected(MAXIM, LowFirstBytes(a), LowFirstBytes(b));
  }

  // ---- parity ----

  /** How many of the bits are set. */
  function Weight(bits: seq<bool>): nat {
    if |bits| == 0 then 0 else Weight(bits[..|bits| - 1]) + (if bits[|bits| - 1] then 1 else 0)
  }

  lemma {:induction false} WeightIsSize(bits: seq<bool>)
    ensures |PolyOf(bits)| == Weight(bits)
  {
    if |bits| == 0 {
      assert PolyOf(bits) == {};
    } else {
      var n := |bits| - 1;
      var front, last := bits[..n], [bits[n]];
      assert bits == front + last;
      WeightIsSize(front);
      PolyOfConcat(front, last);
      assert PolyOf(last) == if bits[n] then {0} else {};
      ShiftSize(PolyOf(front), 1);
      LastTerm(PolyOf(front), bits[n]);
    }
  }

  lemma LastTerm(p: Poly, bit: bool)
    ensures |Add(Shift(p, 1), if bit then {0} else {})| == |Shift(p, 1)| + (if bit then 1 else 0)
  {
    InShift(p, 1, 0);
    assert Add(Shift(p, 1), if bit then {0} else {}) == Shift(p, 1) + (if bit then {0} else {});
  }

  /** The register has an odd number of bits set exactly if the message has. */
  lemma Crc16Parity(data: seq<bv8>, crc: bv16)
    requires IsCrc16(data, crc)
    ensures Weight(Bits16(crc)) % 2 == Weight(Transmitted16(data)) % 2
  {
    Crc16IsRemainder(data, crc);
    CongruentParity(XMODEM, Shift(PolyOf(Transmitted16(data)), 16), PolyOf(Bits16(crc)));
    ShiftSize(PolyOf(Transmitted16(data)), 16);
    WeightIsSize(Transmitted16(data));
    WeightIsSize(Bits16(crc));
  }

  /** The parity of the CRC-8 register is the message's as well. */
  lemma Crc8Parity(data: seq<bv8>, crc: bv8)
    requires IsCrc8(data, crc)
    ensures Weight(LowFirst(crc)) % 2 == Weight(Transmitted8(data)) % 2
  {
    Crc8IsRemainder(data, crc);
    CongruentParity(MAXIM, Shift(PolyOf(Transmitted8(data)), 8), PolyOf(LowFirst(crc)));
    ShiftSize(PolyOf(Transmitted8(data)), 8);
    WeightIsSize(Transmitted8(data));
    WeightIsSize(LowFirst(crc));
  }

  // ---- residues ----

  lemma HighByteMask(c: bv16, m: bv16)
    requires m & 0xFF == 0
    ensures (c & m != 0) == ((c >> 8) as bv8 & (m >> 8) as bv8 != 0)
  {
  }

  lemma LowByteMask(c: bv16, m: bv16)
    requires m & 0xFF00 == 0
    ensures (c & m != 0) == ((c & 0xFF) as bv8 & (m & 0xFF) as bv8 != 0)
  {
  }

  lemma ByteMasks(k: nat)
    requires k < 16
    ensures k >= 8 ==> Mask16(k) & 0xFF == 0
    ensures k < 8 ==> Mask16(k) & 0xFF00 == 0 && (Mask16(k) & 0xFF) as bv8 == Mask8(k)
  {
    assert Mask8(1) == 2 && Mask8(2) == 4 && Mask8(3) == 8 && Mask8(4) == 0x10;
    assert Mask8(5) == 0x20 && Mask8(6) == 0x40 && Mask8(7) == 0x80;
    assert Mask16(1) == 2 && Mask16(2) == 4 && Mask16(3) == 8 && Mask16(4) == 0x10;
    assert Mask16(5) == 0x20 && Mask16(6) == 0x40 && Mask16(7) == 0x80 && Mask16(8) == 0x100;
    assert Mask16(9) == 0x200 && Mask16(10) == 0x400 && Mask16(11) == 0x800 && Mask16(12) == 0x1000;
    assert Mask16(13) == 0x2000 && Mask16(14) == 0x4000 && Mask16(15) == 0x8000;
  }

  lemma HighByteBit(c: bv16, k: nat)
    requires 8 <= k < 16
    ensures Bit16(c, k) == Bit8((c >> 8) as bv8, k - 8)
  {
    Masks16(k);
    ByteMasks(k);
    HighByteMask(c, Mask16(k));
  }

  lemma LowByteBit(c: bv16, k: nat)
    requires k < 8
    ensures Bit16(c, k) == Bit8((c & 0xFF) as bv8, k)
  {
    ByteMasks(k);
    LowByteMask(c, Mask16(k));
  }

  /** Appending the CRC, high byte first, makes the CRC of the whole zero. */
  lemma Crc16Residue(data: seq<bv8>, crc: bv16)
    requires IsCrc16(data, crc)
    ensures IsCrc16(data + [(crc >> 8) as bv8, (crc & 0xFF) as bv8], 0)
  {
    var hi, lo := (crc >> 8) as bv8, (crc & 0xFF) as bv8;
    var tail := HighFirstBytes([hi, lo]);
    assert tail == [HighFirst(hi), HighFirst(lo)];
    assert HighFirstBytes(data + [hi, lo]) == HighFirstBytes(data) + tail;
    ConcatAppend(HighFirstBytes(data), tail);
    assert tail[..1] == [HighFirst(hi)] && tail[..1][..0] == [];
    assert Concat([HighFirst(hi)]) == HighFirst(hi);
    assert Concat(tail) == HighFirst(hi) + HighFirst(lo);
    forall i | 0 <= i < 16 ensures (HighFirst(hi) + HighFirst(lo))[i] == Bits16(crc)[i] {
      if i < 8 { HighByteBit(crc, 15 - i); } else { LowByteBit(crc, 15 - i); }
    }
    assert Concat(tail) == Bits16(crc);
    ResidueIsZero(XMODEM, HighFirstBytes(data), tail);
    ZeroBits();
  }

  lemma Crc8Residue(data: seq<bv8>, crc: bv8)
    requires IsCrc8(data, crc)
    ensures IsCrc8(data + [crc], 0)
  {
    var tail := LowFirstBytes([crc]);
    assert tail == [LowFirst(crc)];
    assert LowFirstBytes(data + [crc]) == LowFirstBytes(data) + tail;
    ConcatAppend(LowFirstBytes(data), tail);
    assert tail[..0] == [];
    assert Concat(tail) == LowFirst(crc);
    ResidueIsZero(MAXIM, LowFirstBytes(data), tail);
    ZeroBits();
  }
}
