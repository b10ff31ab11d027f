/** The check values that checksum.hpp publishes for the text 123456789. */
module ChecksumVectors {
  import opened Checksum
  import opened Lfsr

  const CHECK_TEXT: seq<bv8> := [0x31, 0x32, 0x33, 0x34, 0x35, 0x36, 0x37, 0x38, 0x39]

  function Steps16(c: bv16, n: nat): bv16 {
    if n == 0 then c else Step16(Steps16(c, n - 1))
  }

  function Steps8(c: bv8, n: nat): bv8 {
    if n == 0 then c else Step8(Steps8(c, n - 1))
  }

  lemma {:induction false} Steps16AreTicks(c: bv16, n: nat)
    ensures Bits16(Steps16(c, n)) == Ticks(XMODEM, Bits16(c), n)
  {
    if n > 0 {
      Steps16AreTicks(c, n - 1);
      Step16IsTick(Steps16(c, n - 1));
    }
  }

  lemma {:induction false} Steps8AreTicks(c: bv8, n: nat)
    ensures LowFirst(Steps8(c, n)) == Ticks(MAXIM, LowFirst(c), n)
  {
    if n > 0 {
      Steps8AreTicks(c, n - 1);
      Step8IsTick(Steps8(c, n - 1));
    }
  }

  lemma Next16(data: seq<bv8>, i: nat, c: bv16, d: bv16)
    requires i < |data| && IsCrc16(data[..i], c) && d == Steps16(c ^ ((data[i] as bv16) << 8), 8)
    ensures IsCrc16(data[..i + 1], d)
  {
    Xor16IsXorHead(c, data[i]);
    Steps16AreTicks(c ^ ((data[i] as bv16) << 8), 8);
    Register16Next(data, i);
  }

  lemma Next8(data: seq<bv8>, i: nat, c: bv8, d: bv8)
    requires i < |data| && IsCrc8(data[..i], c) && d == Steps8(c ^ data[i], 8)
    ensures IsCrc8(data[..i + 1], d)
  {
    Xor8IsXorHead(c, data[i]);
    Steps8AreTicks(c ^ data[i], 8);
    Register8Next(data, i);
  }

  lemma FiveBytes16()
    ensures IsCrc16(CHECK_TEXT[..5], 0x546c)
  {
    ZeroBits();
    assert Steps16(0x3100, 8) == 0x2672;
    Next16(CHECK_TEXT, 0, 0x0000, 0x2672);
    assert Steps16(0x1472, 8) == 0x20b5;
    Next16(CHECK_TEXT, 1, 0x2672, 0x20b5);
    assert Steps16(0x13b5, 8) == 0x9752;
    Next16(CHECK_TEXT, 2, 0x20b5, 0x9752);
    assert Steps16(0xa352, 8) == 0xd789;
    Next16(CHECK_TEXT, 3, 0x9752, 0xd789);
    assert Steps16(0xe289, 8) == 0x546c;
    Next16(CHECK_TEXT, 4, 0xd789, 0x546c);
  }

  lemma CheckValue16()
    ensures IsCrc16(CHECK_TEXT, 0x31C3)
  {
    FiveBytes16();
    assert Steps16(0x626c, 8) == 0x20e4;
    Next16(CHECK_TEXT, 5, 0x546c, 0x20e4);
    assert Steps16(0x17e4, 8) == 0x86d6;
    Next16(CHECK_TEXT, 6, 0x20e4, 0x86d6);
    assert Steps16(0xbed6, 8) == 0x9015;
    Next16(CHECK_TEXT, 7, 0x86d6, 0x9015);
    assert Steps16(0xa915, 8) == 0x31c3;
    Next16(CHECK_TEXT, 8, 0x9015, 0x31c3);
    assert CHECK_TEXT[..9] == CHECK_TEXT;
  }

  lemma CheckValue8()
    ensures IsCrc8(CHECK_TEXT, 0xA1)
  {
    ZeroBits();
    assert Steps8(0x31, 8) == 0xe0;
    Next8(CHECK_TEXT, 0, 0x00, 0xe0);
    assert Steps8(0xd2, 8) == 0xeb;
    Next8(CHECK_TEXT, 1, 0xe0, 0xeb);
    assert Steps8(0xd8, 8) == 0x95;
    Next8(CHECK_TEXT, 2, 0xeb, 0x95);
    assert Steps8(0xa1, 8) == 0xf1;
    Next8(CHECK_TEXT, 3, 0x95, 0xf1);
    assert Steps8(0xc4, 8) == 0xab;
    Next8(CHECK_TEXT, 4, 0xf1, 0xab);
    assert Steps8(0x9d, 8) == 0xec;
    Next8(CHECK_TEXT, 5, 0xab, 0xec);
    assert Steps8(0xdb, 8) == 0x77;
    Next8(CHECK_TEXT, 6, 0xec, 0x77);
    assert Steps8(0x4f, 8) == 0x07;
    Next8(CHECK_TEXT, 7, 0x77, 0x07);
    assert Steps8(0x3e, 8) == 0xa1;
    Next8(CHECK_TEXT, 8, 0x07, 0xa1);
    assert CHECK_TEXT[..9] == CHECK_TEXT;
  }
}
