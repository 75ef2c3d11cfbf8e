// Two values of the test suite in RFC 1321, appendix A.5, computed step by step:
// they pin the round functions, the table, the shifts and the order of words and
// bytes of Rfc1321.dfy.

module TestSuite {
  import opened Rfc1321

  // The function of step i on bit vectors.
  function MixBits(i: nat, b: bv32, c: bv32, d: bv32): bv32 {
    if i < 16 then FBits(b, c, d)
    else if i < 32 then GBits(b, c, d)
    else if i < 48 then HBits(b, c, d)
    else IBits(b, c, d)
  }

  lemma MixIs(i: nat, b: bv32, c: bv32, d: bv32)
    requires i < 64
    ensures Mix(i, b as int, c as int, d as int) == MixBits(i, b, c, d) as int
  {
    hide FBits, GBits, HBits, IBits, F, G, H, I;
    OnBits(b, c, d);
  }

  lemma LowPowers()
    ensures Pow2(4) == 0x10 && Pow2(5) == 0x20 && Pow2(6) == 0x40 && Pow2(7) == 0x80
    ensures Pow2(9) == 0x200 && Pow2(10) == 0x400 && Pow2(11) == 0x800 && Pow2(12) == 0x1000
    ensures Pow2(14) == 0x4000 && Pow2(15) == 0x8000 && Pow2(16) == 0x10000
  {
  }

  lemma Powers()
    ensures Pow2(4) == 0x10 && Pow2(5) == 0x20 && Pow2(6) == 0x40 && Pow2(7) == 0x80
    ensures Pow2(9) == 0x200 && Pow2(10) == 0x400 && Pow2(11) == 0x800 && Pow2(12) == 0x1000
    ensures Pow2(14) == 0x4000 && Pow2(15) == 0x8000 && Pow2(16) == 0x10000
    ensures Pow2(17) == 0x20000 && Pow2(18) == 0x40000 && Pow2(20) == 0x100000 && Pow2(21) == 0x200000
    ensures Pow2(22) == 0x400000 && Pow2(23) == 0x800000 && Pow2(25) == 0x2000000 && Pow2(26) == 0x4000000
    ensures Pow2(27) == 0x8000000 && Pow2(28) == 0x10000000
  {
    LowPowers();
    HighPowers();
  }

  lemma HighPowers()
    ensures Pow2(17) == 0x20000 && Pow2(18) == 0x40000 && Pow2(20) == 0x100000 && Pow2(21) == 0x200000
    ensures Pow2(22) == 0x400000 && Pow2(23) == 0x800000 && Pow2(25) == 0x2000000 && Pow2(26) == 0x4000000
    ensures Pow2(27) == 0x8000000 && Pow2(28) == 0x10000000
  {
    LowPowers();
    assert Pow2(20) == 0x100000 && Pow2(24) == 0x1000000;
  }

  lemma RotIs(x: Word, s: nat, hi: nat, lo: nat)
    requires 0 < s < 32 && lo < Pow2(32 - s) && x == hi * Pow2(32 - s) + lo
    ensures RotL(x, s) == lo * Pow2(s) + hi
  {
    hide Pow2;
    DivModUnique(x, Pow2(32 - s), hi, lo);
  }

  lemma OperationIs(mix: Word, a: Word, b: Word, x: Word, s: nat, t: Word, hi: nat, lo: nat)
    requires 0 < s < 32 && lo < Pow2(32 - s)
    requires (a + mix + x + t) % 0x1_0000_0000 == hi * Pow2(32 - s) + lo
    ensures Operation(mix, a, b, x, s, t) == (lo * Pow2(s) + hi + b) % 0x1_0000_0000
  {
    hide Pow2, RotL;
    Sum(a + mix, x);
    Sum(a + mix + x, t);
    RotIs((a + mix + x + t) % 0x1_0000_0000, s, hi, lo);
  }

  lemma Sum(a: nat, b: nat)
    ensures (a % 0x1_0000_0000 + b) % 0x1_0000_0000 == (a + b) % 0x1_0000_0000
  {
  }

  // One more step, given the high and the low bits of the sum that is rotated.
  lemma Next(i: nat, x: seq<Word>, a: bv32, b: bv32, c: bv32, d: bv32, hi: nat, lo: nat, e: Word)
    requires i < 64 && |x| == 16 && Steps(i, x, IV) == Chain(a as int, b as int, c as int, d as int)
    requires lo < Pow2(32 - Shift(i))
    requires (a as int + MixBits(i, b, c, d) as int + x[Index(i)] + T(i)) % 0x1_0000_0000 ==
      hi * Pow2(32 - Shift(i)) + lo
    requires e == (lo * Pow2(Shift(i)) + hi + b as int) % 0x1_0000_0000
    ensures Steps(i + 1, x, IV) == Chain(d as int, e, b as int, c as int)
  {
    hide MixBits, Mix, T, Shift, Index, Operation, Pow2;
    MixIs(i, b, c, d);
    NextOfWords(i, x, a as int, b as int, c as int, d as int, hi, lo, e);
  }

  lemma NextOfWords(i: nat, x: seq<Word>, a: Word, b: Word, c: Word, d: Word, hi: nat, lo: nat, e: Word)
    requires i < 64 && |x| == 16 && Steps(i, x, IV) == Chain(a, b, c, d)
    requires lo < Pow2(32 - Shift(i))
    requires (a + Mix(i, b, c, d) + x[Index(i)] + T(i)) % 0x1_0000_0000 == hi * Pow2(32 - Shift(i)) + lo
    requires e == (lo * Pow2(Shift(i)) + hi + b) % 0x1_0000_0000
    ensures Steps(i + 1, x, IV) == Chain(d, e, b, c)
  {
    hide Mix, T, Shift, Index, Operation, Pow2;
    OperationIs(Mix(i, b, c, d), a, b, x[Index(i)], Shift(i), T(i), hi, lo);
  }

  lemma NoStep(x: seq<Word>)
    requires |x| == 16
    ensures Steps(0, x, IV) == Chain(0x67452301, 0xefcdab89, 0x98badcfe, 0x10325476)
  {
  }

  // ------------------------------------------------- one block, and its text

  // The block of a message of up to three bytes.
  function ShortBlock(first: Word, bits: Word): (x: seq<Word>)
    ensures |x| == 16
  {
    [first, 0, 0, 0, 0, 0, 0, 0, 0, 0, 0, 0, 0, 0, bits, 0]
  }

  lemma LengthBytes(bits: nat)
    requires bits < 0x100
    ensures Bytes([bits, 0]) == [bits, 0, 0, 0, 0, 0, 0, 0]
  {
  }

  lemma WordsOfShort(b0: Byte, b1: Byte, b2: Byte, b3: Byte, bits: Byte)
    ensures
      Words([b0, b1, b2, b3] + Zeros(52) + [bits, 0, 0, 0, 0, 0, 0, 0]) == ShortBlock(WordOf(b0, b1, b2, b3), bits)
  {
    var bs := [b0, b1, b2, b3] + Zeros(52) + [bits, 0, 0, 0, 0, 0, 0, 0];
    forall i | 0 <= i < 16 ensures Words(bs)[i] == ShortBlock(WordOf(b0, b1, b2, b3), bits)[i] {
    }
  }

  lemma OneBlock(m: seq<Byte>, x: seq<Word>, g: Chain, h: Chain)
    requires |Padded(m)| == 64 && Words(Padded(m)) == x && Steps(64, x, IV) == g
    requires h == Chain(Plus(IV.a, g.a), Plus(IV.b, g.b), Plus(IV.c, g.c), Plus(IV.d, g.d))
    ensures Digest(m) == Output(h)
  {
    hide Steps, Words, Bytes, Padded, Plus;
    var p := Padded(m);
    assert p[0..64] == p;
    assert Absorb(IV, p, 0) == IV;
  }

  lemma HexOfWord(w: Word, b0: Byte, b1: Byte, b2: Byte, b3: Byte, t: string)
    requires w == WordOf(b0, b1, b2, b3)
    requires |t| == 8 && t[0] == HexDigit(b0 / 16) && t[1] == HexDigit(b0 % 16)
    requires t[2] == HexDigit(b1 / 16) && t[3] == HexDigit(b1 % 16)
    requires t[4] == HexDigit(b2 / 16) && t[5] == HexDigit(b2 % 16)
    requires t[6] == HexDigit(b3 / 16) && t[7] == HexDigit(b3 % 16)
    ensures Hex(WordBytesOf(w)) == t
  {
    hide Hex, HexDigit, WordOf, ByteOf;
    WordBytes(0, b0, b1, b2, b3);
    HexOfFour(b0, b1, b2, b3);
    assert t == [t[0], t[1], t[2], t[3], t[4], t[5], t[6], t[7]];
  }

  lemma HexOfFour(b0: Byte, b1: Byte, b2: Byte, b3: Byte)
    ensures Hex([b0, b1, b2, b3]) == [HexDigit(b0 / 16), HexDigit(b0 % 16), HexDigit(b1 / 16), HexDigit(b1 % 16),
                                      HexDigit(b2 / 16), HexDigit(b2 % 16), HexDigit(b3 / 16), HexDigit(b3 % 16)]
  {
    hide HexDigit;
    HexAppend([], b0);
    HexAppend([b0], b1);
    HexAppend([b0, b1], b2);
    HexAppend([b0, b1, b2], b3);
    assert [] + [b0] == [b0] && [b0] + [b1] == [b0, b1] && [b0, b1] + [b2] == [b0, b1, b2];
    assert [b0, b1, b2] + [b3] == [b0, b1, b2, b3];
  }

  function WordBytesOf(w: Word): seq<Byte> {
    [ByteOf(w, 0), ByteOf(w, 1), ByteOf(w, 2), ByteOf(w, 3)]
  }

  lemma {:induction false} HexConcat(a: seq<Byte>, b: seq<Byte>)
    ensures Hex(a + b) == Hex(a) + Hex(b)
  {
    hide HexDigit;
    if a == [] {
      assert a + b == b;
    } else {
      assert (a + b)[1..] == a[1..] + b;
      HexConcat(a[1..], b);
    }
  }

  lemma HexOfOutput(h: Chain)
    ensures Hex(Output(h)) ==
      Hex(WordBytesOf(h.a)) + Hex(WordBytesOf(h.b)) + Hex(WordBytesOf(h.c)) + Hex(WordBytesOf(h.d))
  {
    hide ByteOf, Hex;
    var a, b, c, d := WordBytesOf(h.a), WordBytesOf(h.b), WordBytesOf(h.c), WordBytesOf(h.d);
    HexConcat(a, b);
    HexConcat(a + b, c);
    HexConcat(a + b + c, d);
    assert Output(h) == a + b + c + d;
  }

  // ---------------------------------------------------- ""

  const EMPTY := ShortBlock(0x00000080, 0)

  lemma Empty4()
    ensures Steps(4, EMPTY, IV) == Chain(0xa5202774, 0x1b163203, 0xe7f06b23, 0xf59592dd)
  {
    hide Pow2, Steps;
    Powers();
    NoStep(EMPTY);
    Next(0, EMPTY, 0x67452301, 0xefcdab89, 0x98badcfe, 0x10325476, 0x0000006b, 0x016aa4f7, 0xa5202774);
    Next(1, EMPTY, 0x10325476, 0xa5202774, 0xefcdab89, 0x98badcfe, 0x00000b69, 0x00050756, 0xf59592dd);
    Next(2, EMPTY, 0x98badcfe, 0xf59592dd, 0xa5202774, 0xefcdab89, 0x0000d846, 0x0000792d, 0xe7f06b23);
    Next(3, EMPTY, 0xefcdab89, 0xe7f06b23, 0xf59592dd, 0xa5202774, 0x0025c6e0, 0x000000cc, 0x1b163203);
  }

  lemma Empty8()
    ensures Steps(8, EMPTY, IV) == Chain(0x32033344, 0x9bc13ce9, 0xf5b158db, 0x2f35d494)
  {
    hide Pow2, Steps;
    Powers();
    Empty4();
    Next(4, EMPTY, 0xa5202774, 0x1b163203, 0xe7f06b23, 0xf59592dd, 0x00000041, 0x002dda02, 0x32033344);
    Next(5, EMPTY, 0xf59592dd, 0x32033344, 0x1b163203, 0xe7f06b23, 0x00000150, 0x000fd32a, 0x2f35d494);
    Next(6, EMPTY, 0xe7f06b23, 0x2f35d494, 0x32033344, 0x1b163203, 0x00018447, 0x0000633d, 0xf5b158db);
    Next(7, EMPTY, 0x1b163203, 0xf5b158db, 0x2f35d494, 0x32033344, 0x000fe40e, 0x00000298, 0x9bc13ce9);
  }

  lemma Empty12()
    ensures Steps(12, EMPTY, IV) == Chain(0x3893b991, 0x70768a29, 0xe1ef0576, 0xfce4a312)
  {
    hide Pow2, Steps;
    Powers();
    Empty8();
    Next(8, EMPTY, 0x32033344, 0x9bc13ce9, 0xf5b158db, 0x2f35d494, 0x00000028, 0x0139a4f9, 0x3893b991);
    Next(9, EMPTY, 0x2f35d494, 0x3893b991, 0x9bc13ce9, 0xf5b158db, 0x00000981, 0x000c450e, 0xfce4a312);
    Next(10, EMPTY, 0xf5b158db, 0xfce4a312, 0x3893b991, 0x9bc13ce9, 0x00006264, 0x00007285, 0xe1ef0576);
    Next(11, EMPTY, 0x9bc13ce9, 0xe1ef0576, 0xfce4a312, 0x3893b991, 0x000784b3, 0x0000023a, 0x70768a29);
  }

  lemma Empty16()
    ensures Steps(16, EMPTY, IV) == Chain(0xf56c7cf1, 0xd6819c6a, 0x5aa53f75, 0x374943a7)
  {
    hide Pow2, Steps;
    Powers();
    Empty12();
    Next(12, EMPTY, 0x3893b991, 0x70768a29, 0xe1ef0576, 0xfce4a312, 0x00000048, 0x0109ebe5, 0xf56c7cf1);
    Next(13, EMPTY, 0xfce4a312, 0xf56c7cf1, 0x70768a29, 0xe1ef0576, 0x000006b6, 0x00041dcc, 0x374943a7);
    Next(14, EMPTY, 0xe1ef0576, 0x374943a7, 0xf56c7cf1, 0x70768a29, 0x0001fbce, 0x000011ad, 0x5aa53f75);
    Next(15, EMPTY, 0x70768a29, 0x5aa53f75, 0x374943a7, 0xf56c7cf1, 0x001c5cf5, 0x000001ef, 0xd6819c6a);
  }

  lemma Empty20()
    ensures Steps(20, EMPTY, IV) == Chain(0x1c7d7513, 0xbd782e17, 0xc095f13a, 0x7bd57a3a)
  {
    hide Pow2, Steps;
    Powers();
    Empty16();
    Next(16, EMPTY, 0xf56c7cf1, 0xd6819c6a, 0x5aa53f75, 0x374943a7, 0x00000009, 0x022fdec5, 0x1c7d7513);
    Next(17, EMPTY, 0x374943a7, 0x1c7d7513, 0xd6819c6a, 0x5aa53f75, 0x00000127, 0x002fac02, 0x7bd57a3a);
    Next(18, EMPTY, 0x5aa53f75, 0x7bd57a3a, 0x1c7d7513, 0xd6819c6a, 0x00003700, 0x00011301, 0xc095f13a);
    Next(19, EMPTY, 0xd6819c6a, 0xc095f13a, 0x7bd57a3a, 0x1c7d7513, 0x00023cdd, 0x00000fce, 0xbd782e17);
  }

  lemma Empty24()
    ensures Steps(24, EMPTY, IV) == Chain(0x3d1e3e6c, 0xe422531a, 0xeb41643e, 0x68b7b3e3)
  {
    hide Pow2, Steps;
    Powers();
    Empty20();
    Next(20, EMPTY, 0x1c7d7513, 0xbd782e17, 0xc095f13a, 0x7bd57a3a, 0x00000015, 0x03fd3082, 0x3d1e3e6c);
    Next(21, EMPTY, 0x7bd57a3a, 0x3d1e3e6c, 0xbd782e17, 0xc095f13a, 0x00000177, 0x0015ccba, 0x68b7b3e3);
    Next(22, EMPTY, 0xc095f13a, 0x68b7b3e3, 0x3d1e3e6c, 0xbd782e17, 0x0000305b, 0x00020a26, 0xeb41643e);
    Next(23, EMPTY, 0xbd782e17, 0xeb41643e, 0x68b7b3e3, 0x3d1e3e6c, 0x0000eedc, 0x00000f8e, 0xe422531a);
  }

  lemma Empty28()
    ensures Steps(28, EMPTY, IV) == Chain(0x306ec122, 0xa0572807, 0xa3c663da, 0xd28c77c2)
  {
    hide Pow2, Steps;
    Powers();
    Empty24();
    Next(24, EMPTY, 0x3d1e3e6c, 0xe422531a, 0xeb41643e, 0x68b7b3e3, 0x00000008, 0x02626370, 0x306ec122);
    Next(25, EMPTY, 0x68b7b3e3, 0x306ec122, 0xe422531a, 0xeb41643e, 0x000000a0, 0x00510edb, 0xd28c77c2);
    Next(26, EMPTY, 0xeb41643e, 0xd28c77c2, 0x306ec122, 0xe422531a, 0x00002c18, 0x000344e7, 0xa3c663da);
    Next(27, EMPTY, 0xe422531a, 0xa3c663da, 0xd28c77c2, 0x306ec122, 0x0000c42d, 0x00000fc9, 0xa0572807);
  }

  lemma Empty32()
    ensures Steps(32, EMPTY, IV) == Chain(0x13707036, 0xa2205f1f, 0x1c31c384, 0xae7813db)
  {
    hide Pow2, Steps;
    Powers();
    Empty28();
    Next(28, EMPTY, 0x306ec122, 0xa0572807, 0xa3c663da, 0xd28c77c2, 0x0000000f, 0x0398ca41, 0x13707036);
    Next(29, EMPTY, 0xd28c77c2, 0x13707036, 0xa0572807, 0xa3c663da, 0x000001a5, 0x004d83d1, 0xae7813db);
    Next(30, EMPTY, 0xa3c663da, 0xae7813db, 0x13707036, 0xa0572807, 0x00002fa9, 0x0001b6e6, 0x1c31c384);
    Next(31, EMPTY, 0xa0572807, 0x1c31c384, 0xae7813db, 0x13707036, 0x000e9b9b, 0x0000085e, 0xa2205f1f);
  }

  lemma Empty36()
    ensures Steps(36, EMPTY, IV) == Chain(0xdf63eaa1, 0x004b6669, 0x12f3e755, 0xc3689f5b)
  {
    hide Pow2, Steps;
    Powers();
    Empty32();
    Next(32, EMPTY, 0x13707036, 0xa2205f1f, 0x1c31c384, 0xae7813db, 0x00000002, 0x03d438b8, 0xdf63eaa1);
    Next(33, EMPTY, 0xae7813db, 0xdf63eaa1, 0xa2205f1f, 0x1c31c384, 0x000004ba, 0x001c8096, 0xc3689f5b);
    Next(34, EMPTY, 0x1c31c384, 0xc3689f5b, 0xdf63eaa1, 0xa2205f1f, 0x000047fa, 0x00004f8b, 0x12f3e755);
    Next(35, EMPTY, 0xa2205f1f, 0x12f3e755, 0xc3689f5b, 0xdf63eaa1, 0x00577f14, 0x000001da, 0x004b6669);
  }

  lemma Empty40()
    ensures Steps(40, EMPTY, IV) == Chain(0x5f7a9b2e, 0xc5dc8c15, 0x91ca4cb7, 0xabc34e16)
  {
    hide Pow2, Steps;
    Powers();
    Empty36();
    Next(36, EMPTY, 0xdf63eaa1, 0x004b6669, 0x12f3e755, 0xc3689f5b, 0x00000005, 0x05f2f34c, 0x5f7a9b2e);
    Next(37, EMPTY, 0xc3689f5b, 0x5f7a9b2e, 0x004b6669, 0x12f3e755, 0x000002e8, 0x00098916, 0xabc34e16);
    Next(38, EMPTY, 0x12f3e755, 0xabc34e16, 0x5f7a9b2e, 0x004b6669, 0x0000fea1, 0x0000e606, 0x91ca4cb7);
    Next(39, EMPTY, 0x004b6669, 0x91ca4cb7, 0xabc34e16, 0x5f7a9b2e, 0x00123f5e, 0x00000068, 0xc5dc8c15);
  }

  lemma Empty44()
    ensures Steps(44, EMPTY, IV) == Chain(0x4497169d, 0x0fe32453, 0xfd95f243, 0x76fd93d4)
  {
    hide Pow2, Steps;
    Powers();
    Empty40();
    Next(40, EMPTY, 0x5f7a9b2e, 0xc5dc8c15, 0x91ca4cb7, 0xabc34e16, 0x00000008, 0x07eba8a8, 0x4497169d);
    Next(41, EMPTY, 0xabc34e16, 0x4497169d, 0xc5dc8c15, 0x91ca4cb7, 0x00000537, 0x00064ccf, 0x76fd93d4);
    Next(42, EMPTY, 0x91ca4cb7, 0x76fd93d4, 0x4497169d, 0xc5dc8c15, 0x00005e6f, 0x00008698, 0xfd95f243);
    Next(43, EMPTY, 0xc5dc8c15, 0xfd95f243, 0x76fd93d4, 0x4497169d, 0x004d3210, 0x00000024, 0x0fe32453);
  }

  lemma Empty48()
    ensures Steps(48, EMPTY, IV) == Chain(0x3f55edfd, 0xca7d2dbd, 0x68d84ea2, 0x22a31f54)
  {
    hide Pow2, Steps;
    Powers();
    Empty44();
    Next(44, EMPTY, 0x4497169d, 0x0fe32453, 0xfd95f243, 0x76fd93d4, 0x0000000a, 0x02f72c9a, 0x3f55edfd);
    Next(45, EMPTY, 0x76fd93d4, 0x3f55edfd, 0x0fe32453, 0xfd95f243, 0x00000157, 0x001c69a6, 0x22a31f54);
    Next(46, EMPTY, 0xfd95f243, 0x22a31f54, 0x3f55edfd, 0x0fe32453, 0x00002f4e, 0x00004635, 0x68d84ea2);
    Next(47, EMPTY, 0x0fe32453, 0x68d84ea2, 0x22a31f54, 0x3f55edfd, 0x0024df1b, 0x000000c3, 0xca7d2dbd);
  }

  lemma Empty52()
    ensures Steps(52, EMPTY, IV) == Chain(0x93aa2577, 0x561e0689, 0xcd85b8cb, 0x1688dc85)
  {
    hide Pow2, Steps;
    Powers();
    Empty48();
    Next(48, EMPTY, 0x3f55edfd, 0xca7d2dbd, 0x68d84ea2, 0x22a31f54, 0x0000003a, 0x0324b3de, 0x93aa2577);
    Next(49, EMPTY, 0x22a31f54, 0x93aa2577, 0xca7d2dbd, 0x68d84ea2, 0x0000030e, 0x0020b7ad, 0x1688dc85);
    Next(50, EMPTY, 0x68d84ea2, 0x1688dc85, 0x93aa2577, 0xca7d2dbd, 0x00005c46, 0x00016df9, 0xcd85b8cb);
    Next(51, EMPTY, 0xca7d2dbd, 0xcd85b8cb, 0x1688dc85, 0x93aa2577, 0x00184dbe, 0x00000444, 0x561e0689);
  }

  lemma Empty56()
    ensures Steps(56, EMPTY, IV) == Chain(0x5625a114, 0x1e77fa61, 0x392ad0d0, 0x3450f42b)
  {
    hide Pow2, Steps;
    Powers();
    Empty52();
    Next(52, EMPTY, 0x93aa2577, 0x561e0689, 0xcd85b8cb, 0x1688dc85, 0x0000000b, 0x00001e6a, 0x5625a114);
    Next(53, EMPTY, 0x1688dc85, 0x5625a114, 0x561e0689, 0xcd85b8cb, 0x00000317, 0x00378ad4, 0x3450f42b);
    Next(54, EMPTY, 0xcd85b8cb, 0x3450f42b, 0x5625a114, 0x561e0689, 0x00005ca5, 0x000009b3, 0x392ad0d0);
    Next(55, EMPTY, 0x561e0689, 0x392ad0d0, 0x3450f42b, 0x5625a114, 0x000d2991, 0x0000072a, 0x1e77fa61);
  }

  lemma Empty60()
    ensures Steps(60, EMPTY, IV) == Chain(0x474a9c8c, 0x30130182, 0x36594b14, 0xdfce00bc)
  {
    hide Pow2, Steps;
    Powers();
    Empty56();
    Next(56, EMPTY, 0x5625a114, 0x1e77fa61, 0x392ad0d0, 0x3450f42b, 0x0000002b, 0x00a34a88, 0x474a9c8c);
    Next(57, EMPTY, 0x3450f42b, 0x474a9c8c, 0x1e77fa61, 0x392ad0d0, 0x00000030, 0x002620d9, 0xdfce00bc);
    Next(58, EMPTY, 0x392ad0d0, 0xdfce00bc, 0x474a9c8c, 0x1e77fa61, 0x00004a58, 0x0000ad16, 0x36594b14);
    Next(59, EMPTY, 0x1e77fa61, 0x36594b14, 0xdfce00bc, 0x474a9c8c, 0x0019b66e, 0x000007cd, 0x30130182);
  }

  lemma Empty64()
    ensures Steps(64, EMPTY, IV) == Chain(0x7246fad3, 0x14e45506, 0xff4ea3eb, 0x6e10a476)
  {
    hide Pow2, Steps;
    Powers();
    Empty60();
    Next(60, EMPTY, 0x474a9c8c, 0x30130182, 0x36594b14, 0xdfce00bc, 0x00000011, 0x0108cfe5, 0x7246fad3);
    Next(61, EMPTY, 0xdfce00bc, 0x7246fad3, 0x30130182, 0x36594b14, 0x000001a3, 0x003ef26a, 0x6e10a476);
    Next(62, EMPTY, 0x36594b14, 0x6e10a476, 0x7246fad3, 0x30130182, 0x00007f75, 0x0001227b, 0xff4ea3eb);
    Next(63, EMPTY, 0x30130182, 0xff4ea3eb, 0x6e10a476, 0x7246fad3, 0x0015b11b, 0x000000ac, 0x14e45506);
  }

  // MD5 ("") = d41d8cd98f00b204e9800998ecf8427e
  lemma EmptyDigest()
    ensures Hex(Digest([])) == "d41d8cd98f00b204e9800998ecf8427e"
  {
    hide Steps, Absorb, Words, Bytes, Hex, Padded;
    Empty64();
    EmptyPadded();
    OneBlock([], EMPTY, Chain(0x7246fad3, 0x14e45506, 0xff4ea3eb, 0x6e10a476),
             Chain(0xd98c1dd4, 0x04b2008f, 0x980980e9, 0x7e42f8ec));
    EmptyHex();
  }

  lemma EmptyHex()
    ensures Hex(Output(Chain(0xd98c1dd4, 0x04b2008f, 0x980980e9, 0x7e42f8ec))) == "d41d8cd98f00b204e9800998ecf8427e"
  {
    hide Hex, Output, WordBytesOf;
    var h := Chain(0xd98c1dd4, 0x04b2008f, 0x980980e9, 0x7e42f8ec);
    HexOfWord(0xd98c1dd4, 0xd4, 0x1d, 0x8c, 0xd9, "d41d8cd9");
    HexOfWord(0x04b2008f, 0x8f, 0x00, 0xb2, 0x04, "8f00b204");
    HexOfWord(0x980980e9, 0xe9, 0x80, 0x09, 0x98, "e9800998");
    HexOfWord(0x7e42f8ec, 0xec, 0xf8, 0x42, 0x7e, "ecf8427e");
    HexOfOutput(h);
    EmptyText();
  }

  lemma EmptyText()
    ensures "d41d8cd9" + "8f00b204" + "e9800998" + "ecf8427e" == "d41d8cd98f00b204e9800998ecf8427e"
  {
  }

  lemma EmptyPadded()
    ensures |Padded([])| == 64 && Words(Padded([])) == EMPTY
  {
    hide Words, Bytes;
    var m: seq<Byte> := [];
    LengthBytes(0);
    assert PadLength(0) == 56;
    assert Padded(m) == [0x80, 0x00, 0x00, 0x00] + Zeros(52) + [0, 0, 0, 0, 0, 0, 0, 0];
    WordsOfShort(0x80, 0x00, 0x00, 0x00, 0);
  }

  // ---------------------------------------------------- "abc"

  const ABC := ShortBlock(0x80636261, 24)

  lemma Abc4()
    ensures Steps(4, ABC, IV) == Chain(0xd6d117b4, 0x7ad956f2, 0x2f6fbd72, 0x344a8432)
  {
    hide Pow2, Steps;
    Powers();
    NoStep(ABC);
    Next(0, ABC, 0x67452301, 0xefcdab89, 0x98badcfe, 0x10325476, 0x0000002b, 0x01ce06d8, 0xd6d117b4);
    Next(1, ABC, 0x10325476, 0xd6d117b4, 0xefcdab89, 0x98badcfe, 0x00000c7e, 0x0005d796, 0x344a8432);
    Next(2, ABC, 0x98badcfe, 0x344a8432, 0xd6d117b4, 0xefcdab89, 0x00013940, 0x00007d92, 0x2f6fbd72);
    Next(3, ABC, 0xefcdab89, 0x2f6fbd72, 0x344a8432, 0xd6d117b4, 0x00299980, 0x0000012d, 0x7ad956f2);
  }

  lemma Abc8()
    ensures Steps(8, ABC, IV) == Chain(0xc73741ef, 0x928d99f6, 0x207dc67b, 0x8bac3051)
  {
    hide Pow2, Steps;
    Powers();
    Abc4();
    Next(4, ABC, 0xd6d117b4, 0x7ad956f2, 0x2f6fbd72, 0x344a8432, 0x0000007d, 0x0098bbd5, 0xc73741ef);
    Next(5, ABC, 0x344a8432, 0xc73741ef, 0x7ad956f2, 0x2f6fbd72, 0x00000e62, 0x000c474e, 0x8bac3051);
    Next(6, ABC, 0x2f6fbd72, 0x8bac3051, 0xc73741ef, 0x7ad956f2, 0x0001962a, 0x00004a68, 0x207dc67b);
    Next(7, ABC, 0x7ad956f2, 0x207dc67b, 0x8bac3051, 0xc73741ef, 0x000fd37b, 0x000001c8, 0x928d99f6);
  }

  lemma Abc12()
    ensures Steps(12, ABC, IV) == Chain(0x854b3712, 0x5ed49596, 0x3020401c, 0x74e2f284)
  {
    hide Pow2, Steps;
    Powers();
    Abc8();
    Next(8, ABC, 0xc73741ef, 0x928d99f6, 0x207dc67b, 0x8bac3051, 0x0000001c, 0x01e57b3a, 0x854b3712);
    Next(9, ABC, 0x8bac3051, 0x854b3712, 0x928d99f6, 0x207dc67b, 0x00000b72, 0x000ef97b, 0x74e2f284);
    Next(10, ABC, 0x207dc67b, 0x74e2f284, 0x854b3712, 0x928d99f6, 0x00014d98, 0x00005d9e, 0x3020401c);
    Next(11, ABC, 0x928d99f6, 0x3020401c, 0x74e2f284, 0x854b3712, 0x0034557a, 0x000000ba, 0x5ed49596);
  }

  lemma Abc16()
    ensures Steps(16, ABC, IV) == Chain(0xdda9b9a6, 0x72aff2e0, 0xe396856b, 0xa1051895)
  {
    hide Pow2, Steps;
    Powers();
    Abc12();
    Next(12, ABC, 0x854b3712, 0x5ed49596, 0x3020401c, 0x74e2f284, 0x00000010, 0x00fdaa48, 0xdda9b9a6);
    Next(13, ABC, 0x74e2f284, 0xdda9b9a6, 0x5ed49596, 0x3020401c, 0x00000eef, 0x000c35b5, 0xa1051895);
    Next(14, ABC, 0x3020401c, 0xa1051895, 0xdda9b9a6, 0x5ed49596, 0x00016cd6, 0x00002148, 0xe396856b);
    Next(15, ABC, 0x5ed49596, 0xe396856b, 0xa1051895, 0xdda9b9a6, 0x00196d75, 0x0000023c, 0x72aff2e0);
  }

  lemma Abc20()
    ensures Steps(20, ABC, IV) == Chain(0x3e9e9126, 0xb5b204e4, 0xe25e1652, 0x4a1d804e)
  {
    hide Pow2, Steps;
    Powers();
    Abc16();
    Next(16, ABC, 0xdda9b9a6, 0x72aff2e0, 0xe396856b, 0xa1051895, 0x00000006, 0x065f74f2, 0x3e9e9126);
    Next(17, ABC, 0xa1051895, 0x3e9e9126, 0x72aff2e0, 0xe396856b, 0x00000128, 0x0005bf77, 0x4a1d804e);
    Next(18, ABC, 0xe396856b, 0x4a1d804e, 0x3e9e9126, 0x72aff2e0, 0x00001604, 0x00026102, 0xe25e1652);
    Next(19, ABC, 0x72aff2e0, 0xe25e1652, 0x4a1d804e, 0x3e9e9126, 0x0003ee92, 0x00000d35, 0xb5b204e4);
  }

  lemma Abc24()
    ensures Steps(24, ABC, IV) == Chain(0x59a8ffda, 0x47092c07, 0xabfc7920, 0x6d002f1e)
  {
    hide Pow2, Steps;
    Powers();
    Abc20();
    Next(20, ABC, 0x3e9e9126, 0xb5b204e4, 0xe25e1652, 0x4a1d804e, 0x00000016, 0x051fb7d7, 0x59a8ffda);
    Next(21, ABC, 0x4a1d804e, 0x59a8ffda, 0xb5b204e4, 0xe25e1652, 0x00000144, 0x0009ab97, 0x6d002f1e);
    Next(22, ABC, 0xe25e1652, 0x6d002f1e, 0x59a8ffda, 0xb5b204e4, 0x00000a02, 0x0000fbf1, 0xabfc7920);
    Next(23, ABC, 0xb5b204e4, 0xabfc7920, 0x6d002f1e, 0x59a8ffda, 0x000cb2e7, 0x000009b0, 0x47092c07);
  }

  lemma Abc28()
    ensures Steps(28, ABC, IV) == Chain(0xb7f268cf, 0x786acb8f, 0xfe1623b1, 0x09388eff)
  {
    hide Pow2, Steps;
    Powers();
    Abc24();
    Next(24, ABC, 0x59a8ffda, 0x47092c07, 0xabfc7920, 0x6d002f1e, 0x00000008, 0x038749e6, 0xb7f268cf);
    Next(25, ABC, 0x6d002f1e, 0xb7f268cf, 0x47092c07, 0xabfc7920, 0x00000030, 0x0028a313, 0x09388eff);
    Next(26, ABC, 0xabfc7920, 0x09388eff, 0xb7f268cf, 0x47092c07, 0x000014b2, 0x0003d376, 0xfe1623b1);
    Next(27, ABC, 0x47092c07, 0xfe1623b1, 0x09388eff, 0xb7f268cf, 0x0004a7de, 0x000007a5, 0x786acb8f);
  }

  lemma Abc32()
    ensures Steps(32, ABC, IV) == Chain(0x790a77fb, 0x726342d3, 0xa62884aa, 0x9f47e4f8)
  {
    hide Pow2, Steps;
    Powers();
    Abc28();
    Next(28, ABC, 0xb7f268cf, 0x786acb8f, 0xfe1623b1, 0x09388eff, 0x0000000c, 0x0004fd63, 0x790a77fb);
    Next(29, ABC, 0x09388eff, 0x790a77fb, 0x786acb8f, 0xfe1623b1, 0x000000fd, 0x00131eb6, 0x9f47e4f8);
    Next(30, ABC, 0xfe1623b1, 0x9f47e4f8, 0x790a77fb, 0x786acb8f, 0x00001fb2, 0x00001b82, 0xa62884aa);
    Next(31, ABC, 0x786acb8f, 0xa62884aa, 0x9f47e4f8, 0x790a77fb, 0x000abe29, 0x00000cc3, 0x726342d3);
  }

  lemma Abc36()
    ensures Steps(36, ABC, IV) == Chain(0xb3707ebf, 0x3b0875c7, 0x8d212ff5, 0x60127b2e)
  {
    hide Pow2, Steps;
    Powers();
    Abc32();
    Next(32, ABC, 0x790a77fb, 0x726342d3, 0xa62884aa, 0x9f47e4f8, 0x0000000c, 0x0410d3be, 0xb3707ebf);
    Next(33, ABC, 0x9f47e4f8, 0xb3707ebf, 0x726342d3, 0xa62884aa, 0x0000046f, 0x0015943f, 0x60127b2e);
    Next(34, ABC, 0xa62884aa, 0x60127b2e, 0xb3707ebf, 0x726342d3, 0x0000b4c7, 0x00002d0e, 0x8d212ff5);
    Next(35, ABC, 0x726342d3, 0x8d212ff5, 0x60127b2e, 0xb3707ebf, 0x006745d2, 0x0000015b, 0x3b0875c7);
  }

  lemma Abc40()
    ensures Steps(40, ABC, IV) == Chain(0x21b117b9, 0x5a2f5ea5, 0x3575227e, 0x6e7429d5)
  {
    hide Pow2, Steps;
    Powers();
    Abc36();
    Next(36, ABC, 0xb3707ebf, 0x3b0875c7, 0x8d212ff5, 0x60127b2e, 0x00000002, 0x0e6a8a1f, 0x21b117b9);
    Next(37, ABC, 0x60127b2e, 0x21b117b9, 0x3b0875c7, 0x8d212ff5, 0x0000021c, 0x00099862, 0x6e7429d5);
    Next(38, ABC, 0x8d212ff5, 0x6e7429d5, 0x21b117b9, 0x3b0875c7, 0x0000f8a9, 0x0000c700, 0x3575227e);
    Next(39, ABC, 0x3b0875c7, 0x3575227e, 0x6e7429d5, 0x21b117b9, 0x003a3c27, 0x00000049, 0x5a2f5ea5);
  }

  lemma Abc44()
    ensures Steps(44, ABC, IV) == Chain(0x11de1779, 0x4c6124f4, 0x31c465ca, 0xfadcaa38)
  {
    hide Pow2, Steps;
    Powers();
    Abc40();
    Next(40, ABC, 0x21b117b9, 0x5a2f5ea5, 0x3575227e, 0x6e7429d5, 0x00000004, 0x0b7aeb8d, 0x11de1779);
    Next(41, ABC, 0x6e7429d5, 0x11de1779, 0x5a2f5ea5, 0x3575227e, 0x000002bf, 0x001d1fd2, 0xfadcaa38);
    Next(42, ABC, 0x3575227e, 0xfadcaa38, 0x11de1779, 0x5a2f5ea5, 0x0000bb92, 0x000036e7, 0x31c465ca);
    Next(43, ABC, 0x5a2f5ea5, 0x31c465ca, 0xfadcaa38, 0x11de1779, 0x001cbf2a, 0x00000035, 0x4c6124f4);
  }

  lemma Abc48()
    ensures Steps(48, ABC, IV) == Chain(0x7f2e507b, 0x7beb9700, 0x8fae6399, 0x99d9679d)
  {
    hide Pow2, Steps;
    Powers();
    Abc44();
    Next(44, ABC, 0x11de1779, 0x4c6124f4, 0x31c465ca, 0xfadcaa38, 0x00000007, 0x032cd2b8, 0x7f2e507b);
    Next(45, ABC, 0xfadcaa38, 0x7f2e507b, 0x4c6124f4, 0x31c465ca, 0x00000722, 0x00035562, 0x99d9679d);
    Next(46, ABC, 0x31c465ca, 0x99d9679d, 0x7f2e507b, 0x4c6124f4, 0x0000fbfc, 0x0000f5d4, 0x8fae6399);
    Next(47, ABC, 0x4c6124f4, 0x8fae6399, 0x99d9679d, 0x7f2e507b, 0x003d3367, 0x000001d8, 0x7beb9700);
  }

  lemma Abc52()
    ensures Steps(52, ABC, IV) == Chain(0x7b201df8, 0x8bf025c4, 0xb298cefd, 0xf4e8e96e)
  {
    hide Pow2, Steps;
    Powers();
    Abc48();
    Next(48, ABC, 0x7f2e507b, 0x7beb9700, 0x8fae6399, 0x99d9679d, 0x00000038, 0x03fcd21b, 0x7b201df8);
    Next(49, ABC, 0x99d9679d, 0x7b201df8, 0x7beb9700, 0x8fae6399, 0x00000376, 0x001e7232, 0xf4e8e96e);
    Next(50, ABC, 0x8fae6399, 0xf4e8e96e, 0x7b201df8, 0x7beb9700, 0x0000658f, 0x00017b5f, 0xb298cefd);
    Next(51, ABC, 0x7beb9700, 0xb298cefd, 0xf4e8e96e, 0x7b201df8, 0x001756c7, 0x000006ca, 0x8bf025c4);
  }

  lemma Abc56()
    ensures Steps(56, ABC, IV) == Chain(0x06cc5e8a, 0x3bfa2c27, 0x7d632dd0, 0x5b0d97aa)
  {
    hide Pow2, Steps;
    Powers();
    Abc52();
    Next(52, ABC, 0x7b201df8, 0x8bf025c4, 0xb298cefd, 0xf4e8e96e, 0x00000006, 0x01eb70e3, 0x06cc5e8a);
    Next(53, ABC, 0xf4e8e96e, 0x06cc5e8a, 0x8bf025c4, 0xb298cefd, 0x00000120, 0x0015104e, 0x5b0d97aa);
    Next(54, ABC, 0xb298cefd, 0x5b0d97aa, 0x06cc5e8a, 0x8bf025c4, 0x00001626, 0x000044ab, 0x7d632dd0);
    Next(55, ABC, 0x8bf025c4, 0x7d632dd0, 0x5b0d97aa, 0x06cc5e8a, 0x0016fe57, 0x000005f4, 0x3bfa2c27);
  }

  lemma Abc60()
    ensures Steps(60, ABC, IV) == Chain(0x7f81cc35, 0x7327d604, 0x4f9dbe3f, 0x094454ab)
  {
    hide Pow2, Steps;
    Powers();
    Abc56();
    Next(56, ABC, 0x06cc5e8a, 0x3bfa2c27, 0x7d632dd0, 0x5b0d97aa, 0x0000000e, 0x010e1e80, 0x7f81cc35);
    Next(57, ABC, 0x5b0d97aa, 0x7f81cc35, 0x3bfa2c27, 0x7d632dd0, 0x00000076, 0x002270a2, 0x094454ab);
    Next(58, ABC, 0x7d632dd0, 0x094454ab, 0x7f81cc35, 0x3bfa2c27, 0x00006994, 0x00008cb2, 0x4f9dbe3f);
    Next(59, ABC, 0x3bfa2c27, 0x4f9dbe3f, 0x094454ab, 0x7f81cc35, 0x000a17c5, 0x0000011c, 0x7327d604);
  }

  lemma Abc64()
    ensures Steps(64, ABC, IV) == Chain(0x310ade8f, 0xc08226b3, 0xe484b9d8, 0x624d8cb2)
  {
    hide Pow2, Steps;
    Powers();
    Abc60();
    Next(60, ABC, 0x7f81cc35, 0x7327d604, 0x4f9dbe3f, 0x094454ab, 0x0000000b, 0x02f78c22, 0x310ade8f);
    Next(61, ABC, 0x094454ab, 0x310ade8f, 0x7327d604, 0x4f9dbe3f, 0x00000223, 0x000c50ab, 0x624d8cb2);
    Next(62, ABC, 0x4f9dbe3f, 0x624d8cb2, 0x310ade8f, 0x7327d604, 0x00002d26, 0x0001046e, 0xe484b9d8);
    Next(63, ABC, 0x7327d604, 0xe484b9d8, 0x624d8cb2, 0x310ade8f, 0x001d6cdb, 0x000006df, 0xc08226b3);
  }

  // MD5 ("abc") = 900150983cd24fb0d6963f7d28e17f72
  lemma AbcDigest()
    ensures Hex(Digest([0x61, 0x62, 0x63])) == "900150983cd24fb0d6963f7d28e17f72"
  {
    hide Steps, Absorb, Words, Bytes, Hex, Padded;
    Abc64();
    AbcPadded();
    OneBlock([0x61, 0x62, 0x63], ABC, Chain(0x310ade8f, 0xc08226b3, 0xe484b9d8, 0x624d8cb2),
             Chain(0x98500190, 0xb04fd23c, 0x7d3f96d6, 0x727fe128));
    AbcHex();
  }

  lemma AbcHex()
    ensures Hex(Output(Chain(0x98500190, 0xb04fd23c, 0x7d3f96d6, 0x727fe128))) == "900150983cd24fb0d6963f7d28e17f72"
  {
    hide Hex, Output, WordBytesOf;
    var h := Chain(0x98500190, 0xb04fd23c, 0x7d3f96d6, 0x727fe128);
    HexOfWord(0x98500190, 0x90, 0x01, 0x50, 0x98, "90015098");
    HexOfWord(0xb04fd23c, 0x3c, 0xd2, 0x4f, 0xb0, "3cd24fb0");
    HexOfWord(0x7d3f96d6, 0xd6, 0x96, 0x3f, 0x7d, "d6963f7d");
    HexOfWord(0x727fe128, 0x28, 0xe1, 0x7f, 0x72, "28e17f72");
    HexOfOutput(h);
    AbcText();
  }

  lemma AbcText()
    ensures "90015098" + "3cd24fb0" + "d6963f7d" + "28e17f72" == "900150983cd24fb0d6963f7d28e17f72"
  {
  }

  lemma AbcPadded()
    ensures |Padded([0x61, 0x62, 0x63])| == 64 && Words(Padded([0x61, 0x62, 0x63])) == ABC
  {
    hide Words, Bytes;
    var m: seq<Byte> := [0x61, 0x62, 0x63];
    LengthBytes(24);
    assert PadLength(3) == 53;
    assert Padded(m) == [0x61, 0x62, 0x63, 0x80] + Zeros(52) + [24, 0, 0, 0, 0, 0, 0, 0];
    WordsOfShort(0x61, 0x62, 0x63, 0x80, 24);
  }
}
