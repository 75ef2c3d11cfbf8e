// The streaming digest class of src/app/md5.cc: a 64-byte carry-over buffer, a
// 64-bit bit counter in two 32-bit words, padding, and the unrolled compression
// function, proved against the reference of Rfc1321.dfy.

module Md5 {
  import opened Rfc1321

  const S11: nat := 7
  const S12: nat := 12
  const S13: nat := 17
  const S14: nat := 22
  const S21: nat := 5
  const S22: nat := 9
  const S23: nat := 14
  const S24: nat := 20
  const S31: nat := 4
  const S32: nat := 11
  const S33: nat := 16
  const S34: nat := 23
  const S41: nat := 6
  const S42: nat := 10
  const S43: nat := 15
  const S44: nat := 21

  method FF(a: Word, b: Word, c: Word, d: Word, x: Word, s: nat, ac: Word) returns (r: Word)
    requires 0 < s < 32
    ensures r == Operation(F(b, c, d), a, b, x, s, ac)
  {
    r := Plus(RotL(Plus(Plus(Plus(a, F(b, c, d)), x), ac), s), b);
  }

  method GG(a: Word, b: Word, c: Word, d: Word, x: Word, s: nat, ac: Word) returns (r: Word)
    requires 0 < s < 32
    ensures r == Operation(G(b, c, d), a, b, x, s, ac)
  {
    r := Plus(RotL(Plus(Plus(Plus(a, G(b, c, d)), x), ac), s), b);
  }

  method HH(a: Word, b: Word, c: Word, d: Word, x: Word, s: nat, ac: Word) returns (r: Word)
    requires 0 < s < 32
    ensures r == Operation(H(b, c, d), a, b, x, s, ac)
  {
    r := Plus(RotL(Plus(Plus(Plus(a, H(b, c, d)), x), ac), s), b);
  }

  method II(a: Word, b: Word, c: Word, d: Word, x: Word, s: nat, ac: Word) returns (r: Word)
    requires 0 < s < 32
    ensures r == Operation(I(b, c, d), a, b, x, s, ac)
  {
    r := Plus(RotL(Plus(Plus(Plus(a, I(b, c, d)), x), ac), s), b);
  }

  // Steps n to n3, the registers named as in the unrolled code.
  lemma FourSteps(n: nat, n1: nat, n2: nat, n3: nat, n4: nat, x: seq<Word>, h: Chain)
    requires n1 == n + 1 && n2 == n + 2 && n3 == n + 3 && n4 == n + 4 <= 64
    requires |x| == 16
    ensures
      var g := Steps(n, x, h);
      var a := Operate(n, g.a, g.b, g.c, g.d, x);
      var d := Operate(n1, g.d, a, g.b, g.c, x);
      var c := Operate(n2, g.c, d, a, g.b, x);
      var b := Operate(n3, g.b, c, d, a, x);
      Steps(n4, x, h) == Chain(a, b, c, d)
  {
    hide Operate;
    assert Steps(n2, x, h) == Step(n1, x, Step(n, x, Steps(n, x, h)));
  }

  // The message word, the shift and the constant of a step.
  ghost predicate Uses(i: nat, k: nat, s: nat, t: Word)
    requires i < 64
  {
    Index(i) == k && Shift(i) == s && T(i) == t
  }

  lemma UsesInRound1()
    ensures Uses(0, 0, S11, 0xd76aa478)
    ensures Uses(1, 1, S12, 0xe8c7b756)
    ensures Uses(2, 2, S13, 0x242070db)
    ensures Uses(3, 3, S14, 0xc1bdceee)
    ensures Uses(4, 4, S11, 0xf57c0faf)
    ensures Uses(5, 5, S12, 0x4787c62a)
    ensures Uses(6, 6, S13, 0xa8304613)
    ensures Uses(7, 7, S14, 0xfd469501)
    ensures Uses(8, 8, S11, 0x698098d8)
    ensures Uses(9, 9, S12, 0x8b44f7af)
    ensures Uses(10, 10, S13, 0xffff5bb1)
    ensures Uses(11, 11, S14, 0x895cd7be)
    ensures Uses(12, 12, S11, 0x6b901122)
    ensures Uses(13, 13, S12, 0xfd987193)
    ensures Uses(14, 14, S13, 0xa679438e)
    ensures Uses(15, 15, S14, 0x49b40821)
  {
  }

  lemma UsesInRound2()
    ensures Uses(16, 1, S21, 0xf61e2562)
    ensures Uses(17, 6, S22, 0xc040b340)
    ensures Uses(18, 11, S23, 0x265e5a51)
    ensures Uses(19, 0, S24, 0xe9b6c7aa)
    ensures Uses(20, 5, S21, 0xd62f105d)
    ensures Uses(21, 10, S22, 0x02441453)
    ensures Uses(22, 15, S23, 0xd8a1e681)
    ensures Uses(23, 4, S24, 0xe7d3fbc8)
    ensures Uses(24, 9, S21, 0x21e1cde6)
    ensures Uses(25, 14, S22, 0xc33707d6)
    ensures Uses(26, 3, S23, 0xf4d50d87)
    ensures Uses(27, 8, S24, 0x455a14ed)
    ensures Uses(28, 13, S21, 0xa9e3e905)
    ensures Uses(29, 2, S22, 0xfcefa3f8)
    ensures Uses(30, 7, S23, 0x676f02d9)
    ensures Uses(31, 12, S24, 0x8d2a4c8a)
  {
  }

  lemma UsesInRound3()
    ensures Uses(32, 5, S31, 0xfffa3942)
    ensures Uses(33, 8, S32, 0x8771f681)
    ensures Uses(34, 11, S33, 0x6d9d6122)
    ensures Uses(35, 14, S34, 0xfde5380c)
    ensures Uses(36, 1, S31, 0xa4beea44)
    ensures Uses(37, 4, S32, 0x4bdecfa9)
    ensures Uses(38, 7, S33, 0xf6bb4b60)
    ensures Uses(39, 10, S34, 0xbebfbc70)
    ensures Uses(40, 13, S31, 0x289b7ec6)
    ensures Uses(41, 0, S32, 0xeaa127fa)
    ensures Uses(42, 3, S33, 0xd4ef3085)
    ensures Uses(43, 6, S34, 0x04881d05)
    ensures Uses(44, 9, S31, 0xd9d4d039)
    ensures Uses(45, 12, S32, 0xe6db99e5)
    ensures Uses(46, 15, S33, 0x1fa27cf8)
    ensures Uses(47, 2, S34, 0xc4ac5665)
  {
  }

  lemma UsesInRound4()
    ensures Uses(48, 0, S41, 0xf4292244)
    ensures Uses(49, 7, S42, 0x432aff97)
    ensures Uses(50, 14, S43, 0xab9423a7)
    ensures Uses(51, 5, S44, 0xfc93a039)
    ensures Uses(52, 12, S41, 0x655b59c3)
    ensures Uses(53, 3, S42, 0x8f0ccc92)
    ensures Uses(54, 10, S43, 0xffeff47d)
    ensures Uses(55, 1, S44, 0x85845dd1)
    ensures Uses(56, 8, S41, 0x6fa87e4f)
    ensures Uses(57, 15, S42, 0xfe2ce6e0)
    ensures Uses(58, 6, S43, 0xa3014314)
    ensures Uses(59, 13, S44, 0x4e0811a1)
    ensures Uses(60, 4, S41, 0xf7537e82)
    ensures Uses(61, 11, S42, 0xbd3af235)
    ensures Uses(62, 2, S43, 0x2ad7d2bb)
    ensures Uses(63, 9, S44, 0xeb86d391)
  {
  }

  // The four rounds of 16 operations; h is what the registers held before them.

  method Round1(x: seq<Word>, a0: Word, b0: Word, c0: Word, d0: Word, ghost h: Chain)
    returns (a: Word, b: Word, c: Word, d: Word)
    requires |x| == 16 && Chain(a0, b0, c0, d0) == Steps(0, x, h)
    ensures Chain(a, b, c, d) == Steps(16, x, h)
  {
    hide Steps, Step, Operation, F, T, Index, Shift;
    UsesInRound1();
    a, b, c, d := a0, b0, c0, d0;
    a := FF(a, b, c, d, x[0], S11, 0xd76aa478);
    d := FF(d, a, b, c, x[1], S12, 0xe8c7b756);
    c := FF(c, d, a, b, x[2], S13, 0x242070db);
    b := FF(b, c, d, a, x[3], S14, 0xc1bdceee);
    assert Chain(a, b, c, d) == Steps(4, x, h) by { FourSteps(0, 1, 2, 3, 4, x, h); }
    a := FF(a, b, c, d, x[4], S11, 0xf57c0faf);
    d := FF(d, a, b, c, x[5], S12, 0x4787c62a);
    c := FF(c, d, a, b, x[6], S13, 0xa8304613);
    b := FF(b, c, d, a, x[7], S14, 0xfd469501);
    assert Chain(a, b, c, d) == Steps(8, x, h) by { FourSteps(4, 5, 6, 7, 8, x, h); }
    a := FF(a, b, c, d, x[8], S11, 0x698098d8);
    d := FF(d, a, b, c, x[9], S12, 0x8b44f7af);
    c := FF(c, d, a, b, x[10], S13, 0xffff5bb1);
    b := FF(b, c, d, a, x[11], S14, 0x895cd7be);
    assert Chain(a, b, c, d) == Steps(12, x, h) by { FourSteps(8, 9, 10, 11, 12, x, h); }
    a := FF(a, b, c, d, x[12], S11, 0x6b901122);
    d := FF(d, a, b, c, x[13], S12, 0xfd987193);
    c := FF(c, d, a, b, x[14], S13, 0xa679438e);
    b := FF(b, c, d, a, x[15], S14, 0x49b40821);
    assert Chain(a, b, c, d) == Steps(16, x, h) by { FourSteps(12, 13, 14, 15, 16, x, h); }
  }

  method Round2(x: seq<Word>, a0: Word, b0: Word, c0: Word, d0: Word, ghost h: Chain)
    returns (a: Word, b: Word, c: Word, d: Word)
    requires |x| == 16 && Chain(a0, b0, c0, d0) == Steps(16, x, h)
    ensures Chain(a, b, c, d) == Steps(32, x, h)
  {
    hide Steps, Step, Operation, G, T, Index, Shift;
    UsesInRound2();
    a, b, c, d := a0, b0, c0, d0;
    a := GG(a, b, c, d, x[1], S21, 0xf61e2562);
    d := GG(d, a, b, c, x[6], S22, 0xc040b340);
    c := GG(c, d, a, b, x[11], S23, 0x265e5a51);
    b := GG(b, c, d, a, x[0], S24, 0xe9b6c7aa);
    assert Chain(a, b, c, d) == Steps(20, x, h) by { FourSteps(16, 17, 18, 19, 20, x, h); }
    a := GG(a, b, c, d, x[5], S21, 0xd62f105d);
    d := GG(d, a, b, c, x[10], S22, 0x02441453);
    c := GG(c, d, a, b, x[15], S23, 0xd8a1e681);
    b := GG(b, c, d, a, x[4], S24, 0xe7d3fbc8);
    assert Chain(a, b, c, d) == Steps(24, x, h) by { FourSteps(20, 21, 22, 23, 24, x, h); }
    a := GG(a, b, c, d, x[9], S21, 0x21e1cde6);
    d := GG(d, a, b, c, x[14], S22, 0xc33707d6);
    c := GG(c, d, a, b, x[3], S23, 0xf4d50d87);
    b := GG(b, c, d, a, x[8], S24, 0x455a14ed);
    assert Chain(a, b, c, d) == Steps(28, x, h) by { FourSteps(24, 25, 26, 27, 28, x, h); }
    a := GG(a, b, c, d, x[13], S21, 0xa9e3e905);
    d := GG(d, a, b, c, x[2], S22, 0xfcefa3f8);
    c := GG(c, d, a, b, x[7], S23, 0x676f02d9);
    b := GG(b, c, d, a, x[12], S24, 0x8d2a4c8a);
    assert Chain(a, b, c, d) == Steps(32, x, h) by { FourSteps(28, 29, 30, 31, 32, x, h); }
  }

  method Round3(x: seq<Word>, a0: Word, b0: Word, c0: Word, d0: Word, ghost h: Chain)
    returns (a: Word, b: Word, c: Word, d: Word)
    requires |x| == 16 && Chain(a0, b0, c0, d0) == Steps(32, x, h)
    ensures Chain(a, b, c, d) == Steps(48, x, h)
  {
    hide Steps, Step, Operation, H, T, Index, Shift;
    UsesInRound3();
    a, b, c, d := a0, b0, c0, d0;
    a := HH(a, b, c, d, x[5], S31, 0xfffa3942);
    d := HH(d, a, b, c, x[8], S32, 0x8771f681);
    c := HH(c, d, a, b, x[11], S33, 0x6d9d6122);
    b := HH(b, c, d, a, x[14], S34, 0xfde5380c);
    assert Chain(a, b, c, d) == Steps(36, x, h) by { FourSteps(32, 33, 34, 35, 36, x, h); }
    a := HH(a, b, c, d, x[1], S31, 0xa4beea44);
    d := HH(d, a, b, c, x[4], S32, 0x4bdecfa9);
    c := HH(c, d, a, b, x[7], S33, 0xf6bb4b60);
    b := HH(b, c, d, a, x[10], S34, 0xbebfbc70);
    assert Chain(a, b, c, d) == Steps(40, x, h) by { FourSteps(36, 37, 38, 39, 40, x, h); }
    a := HH(a, b, c, d, x[13], S31, 0x289b7ec6);
    d := HH(d, a, b, c, x[0], S32, 0xeaa127fa);
    c := HH(c, d, a, b, x[3], S33, 0xd4ef3085);
    b := HH(b, c, d, a, x[6], S34, 0x04881d05);
    assert Chain(a, b, c, d) == Steps(44, x, h) by { FourSteps(40, 41, 42, 43, 44, x, h); }
    a := HH(a, b, c, d, x[9], S31, 0xd9d4d039);
    d := HH(d, a, b, c, x[12], S32, 0xe6db99e5);
    c := HH(c, d, a, b, x[15], S33, 0x1fa27cf8);
    b := HH(b, c, d, a, x[2], S34, 0xc4ac5665);
    assert Chain(a, b, c, d) == Steps(48, x, h) by { FourSteps(44, 45, 46, 47, 48, x, h); }
  }

  method Round4(x: seq<Word>, a0: Word, b0: Word, c0: Word, d0: Word, ghost h: Chain)
    returns (a: Word, b: Word, c: Word, d: Word)
    requires |x| == 16 && Chain(a0, b0, c0, d0) == Steps(48, x, h)
    ensures Chain(a, b, c, d) == Steps(64, x, h)
  {
    hide Steps, Step, Operation, I, T, Index, Shift;
    UsesInRound4();
    a, b, c, d := a0, b0, c0, d0;
    a := II(a, b, c, d, x[0], S41, 0xf4292244);
    d := II(d, a, b, c, x[7], S42, 0x432aff97);
    c := II(c, d, a, b, x[14], S43, 0xab9423a7);
    b := II(b, c, d, a, x[5], S44, 0xfc93a039);
    assert Chain(a, b, c, d) == Steps(52, x, h) by { FourSteps(48, 49, 50, 51, 52, x, h); }
    a := II(a, b, c, d, x[12], S41, 0x655b59c3);
    d := II(d, a, b, c, x[3], S42, 0x8f0ccc92);
    c := II(c, d, a, b, x[10], S43, 0xffeff47d);
    b := II(b, c, d, a, x[1], S44, 0x85845dd1);
    assert Chain(a, b, c, d) == Steps(56, x, h) by { FourSteps(52, 53, 54, 55, 56, x, h); }
    a := II(a, b, c, d, x[8], S41, 0x6fa87e4f);
    d := II(d, a, b, c, x[15], S42, 0xfe2ce6e0);
    c := II(c, d, a, b, x[6], S43, 0xa3014314);
    b := II(b, c, d, a, x[13], S44, 0x4e0811a1);
    assert Chain(a, b, c, d) == Steps(60, x, h) by { FourSteps(56, 57, 58, 59, 60, x, h); }
    a := II(a, b, c, d, x[4], S41, 0xf7537e82);
    d := II(d, a, b, c, x[11], S42, 0xbd3af235);
    c := II(c, d, a, b, x[2], S43, 0x2ad7d2bb);
    b := II(b, c, d, a, x[9], S44, 0xeb86d391);
    assert Chain(a, b, c, d) == Steps(64, x, h) by { FourSteps(60, 61, 62, 63, 64, x, h); }
  }

  // Byte arrays hold four bytes a word, low-order byte first.
  method Decode(output: array<Word>, input: array<Byte>, from: nat, len: nat)
    requires len % 4 == 0 && len / 4 <= output.Length && from + len <= input.Length
    modifies output
    ensures output[..len / 4] == Words(input[from..from + len])
    ensures output[len / 4..] == old(output[len / 4..])
  {
    hide Words, WordOf;
    NoWords();
    var i, j := 0, 0;
    while j < len
      invariant j == 4 * i && j <= len
      invariant output[..i] == Words(input[from..from + j])
      invariant output[len / 4..] == old(output[len / 4..])
    {
      ghost var done := output[..i];
      output[i] := WordOf(input[from + j], input[from + j + 1], input[from + j + 2], input[from + j + 3]);
      assert output[..i + 1] == done + [output[i]];
      WordsAppend(input[from..from + j], input[from + j..from + j + 4]);
      assert input[from..from + j] + input[from + j..from + j + 4] == input[from..from + j + 4];
      i, j := i + 1, j + 4;
    }
  }

  method Encode(output: array<Byte>, input: array<Word>, len: nat)
    requires len % 4 == 0 && len <= output.Length && len / 4 <= input.Length
    modifies output
    ensures output[..len] == Bytes(input[..len / 4])
    ensures output[len..] == old(output[len..])
  {
    hide Bytes;
    NoWords();
    var i, j := 0, 0;
    while j < len
      invariant j == 4 * i && j <= len
      invariant output[..j] == Bytes(input[..i])
      invariant output[len..] == old(output[len..])
    {
      ghost var done := output[..j];
      output[j] := input[i] % 0x100;
      output[j + 1] := input[i] / 0x100 % 0x100;
      output[j + 2] := input[i] / 0x100 / 0x100 % 0x100;
      output[j + 3] := input[i] / 0x100 / 0x100 / 0x100 % 0x100;
      assert output[..j + 4] == done + [output[j], output[j + 1], output[j + 2], output[j + 3]];
      BytesAppend(input[..i], input[i]);
      assert input[..i] + [input[i]] == input[..i + 1];
      i, j := i + 1, j + 4;
    }
  }

  lemma NoWords()
    ensures Words([]) == [] && Bytes([]) == []
  {
  }

  lemma WordsAppend(bs: seq<Byte>, quad: seq<Byte>)
    requires |bs| % 4 == 0 && |quad| == 4
    ensures Words(bs + quad) == Words(bs) + [WordOf(quad[0], quad[1], quad[2], quad[3])]
  {
  }

  lemma BytesAppend(ws: seq<Word>, w: Word)
    ensures Bytes(ws + [w]) ==
      Bytes(ws) + [w % 0x100, w / 0x100 % 0x100, w / 0x100 / 0x100 % 0x100, w / 0x100 / 0x100 / 0x100 % 0x100]
  {
  }

  method MemCopy(target: array<Byte>, to: nat, source: array<Byte>, from: nat, n: nat)
    requires target != source
    requires to + n <= target.Length && from + n <= source.Length
    modifies target
    ensures target[..] == old(target[..to]) + source[from..from + n] + old(target[to + n..])
  {
    forall k | 0 <= k < n {
      target[to + k] := source[from + k];
    }
  }

  // -------------------------------------------------------- the block counter

  // Whether update's loop, whose 32-bit test `i + blocksize <= length` wraps
  // near 2^32, handles a chunk of this length when index bytes are buffered.
  predicate ChunkFits(index: nat, length: nat)
    requires index < 64
  {
    length < 0x1_0000_0000 - 64 + (64 - index) % 64
  }

  lemma NoSteps(x: seq<Word>, h: Chain)
    requires |x| == 16
    ensures Steps(0, x, h) == h
  {
  }

  lemma BufferedBytes(n: nat)
    ensures BitLength(n)[0] / 8 % 64 == n % 64
  {
    var low, lost := BitLength(n)[0], 8 * n / 0x1_0000_0000;
    assert low / 8 == n - 0x2000_0000 * lost;
    assert n == 64 * (n / 64) + n % 64;
    assert low / 8 == 64 * (n / 64 - 0x80_0000 * lost) + n % 64;
  }

  lemma PadLengthIs(total: nat, n: nat, index: nat)
    requires total == 64 * n + index && index < 64
    ensures PadLength(total) == if index < 56 then 56 - index else 120 - index
  {
    PadLengthLeast(total, if index < 56 then 56 - index else 120 - index);
  }

  // Adding two bit lengths word by word; the low words carry exactly when
  // their sum wraps below the addend.
  lemma AddBitLengths(n: nat, length: nat, low: Word, high: Word, shifted: Word)
    requires length < 0x1_0000_0000
    requires low == BitLength(n)[0] && high == BitLength(n)[1] && shifted == 8 * length % 0x1_0000_0000
    ensures
      var sum := Plus(low, shifted);
      var carried := if sum < shifted then Plus(high, 1) else high;
      sum == BitLength(n + length)[0] && Plus(carried, length / 0x2000_0000) == BitLength(n + length)[1]
  {
    var lost := if low + shifted < 0x1_0000_0000 then 0 else 1;
    var q, r := 8 * n / 0x1_0000_0000, length / 0x2000_0000;
    WordSplit(8 * length, r, shifted);
    WordSplit(8 * (n + length), q + r + lost, low + shifted - lost * 0x1_0000_0000);
    WordSplit(low + shifted, lost, low + shifted - lost * 0x1_0000_0000);
    PlusPlus(q, lost);
    PlusPlus(q + lost, r);
  }

  lemma PlusPlus(q: nat, x: nat)
    ensures (q % 0x1_0000_0000 + x) % 0x1_0000_0000 == (q + x) % 0x1_0000_0000
  {
    var t, r := q / 0x1_0000_0000, q % 0x1_0000_0000 + x;
    WordSplit(q + x, t + r / 0x1_0000_0000, r % 0x1_0000_0000);
  }

  lemma WordSplit(total: nat, q: nat, r: Word)
    requires total == q * 0x1_0000_0000 + r
    ensures total / 0x1_0000_0000 == q && total % 0x1_0000_0000 == r
  {
  }

  lemma ShortChunkFits(index: nat, length: nat)
    requires index < 64 && length < 0x1_0000_0000 - 64
    ensures ChunkFits(index, length)
  {
  }

  lemma ChunkFitsShort(index: nat, length: nat)
    requires index < 64 && ChunkFits(index, length)
    ensures length < 0x1_0000_0000
  {
  }

  // The conversion of a length to the 32-bit size_type.
  function ToSize(n: nat): (r: nat)
    ensures r <= n && r < 0x1_0000_0000
    ensures n < 0x1_0000_0000 ==> r == n
  {
    n % 0x1_0000_0000
  }

  // The value of i after j rounds of the loop, and the loop ending after k
  // rounds that each stayed inside the chunk.
  function RoundAt(first: nat, j: nat): Word {
    (first + 64 * j) % 0x1_0000_0000
  }

  ghost predicate EndsAfter(first: nat, length: nat, k: nat) {
    (forall j | 0 <= j < k :: RoundAt(first, j) + 64 <= length && Plus(RoundAt(first, j), 64) <= length) &&
    !(Plus(RoundAt(first, k), 64) <= length)
  }

  // The guard is exact: outside it the loop reads beyond the chunk or never ends.
  lemma ChunkFitsExactly(index: nat, first: nat, length: nat)
    requires index < 64 && first == 64 - index <= length < 0x1_0000_0000
    ensures ChunkFits(index, length) <==> exists k: nat :: EndsAfter(first, length, k)
  {
    hide EndsAfter, RoundAt, Plus;
    var last := (length - first) / 64;
    var rest := length - first - 64 * last;
    LastRound(first, length, last, rest);
    if ChunkFits(index, length) {
      FittingEnds(index, first, length, last);
    } else {
      forall k: nat ensures !EndsAfter(first, length, k) {
        OverflowGoesOn(index, first, length, last, k);
      }
    }
  }

  lemma LastRound(first: nat, length: nat, last: nat, rest: nat)
    requires first + 64 * last + rest == length < 0x1_0000_0000 && rest < 64
    ensures forall j: nat | j <= last :: RoundAt(first, j) == first + 64 * j
  {
  }

  lemma FittingEnds(index: nat, first: nat, length: nat, last: nat)
    requires index < 64 && first == 64 - index && ChunkFits(index, length) && length < 0x1_0000_0000
    requires first + 64 * last <= length < first + 64 * last + 64
    requires forall j: nat | j <= last :: RoundAt(first, j) == first + 64 * j
    ensures EndsAfter(first, length, last)
  {
    hide ChunkFits, Plus, RoundAt;
    forall j: nat | j <= last
      ensures Plus(RoundAt(first, j), 64) <= length <==> RoundAt(first, j) + 64 <= length
    {
      NoWrap(first, length, RoundAt(first, j), j);
    }
  }

  lemma OverflowGoesOn(index: nat, first: nat, length: nat, last: nat, k: nat)
    requires index < 64 && first == 64 - index && !ChunkFits(index, length) && length < 0x1_0000_0000
    requires first + 64 * last <= length < first + 64 * last + 64
    requires forall j: nat | j <= last :: RoundAt(first, j) == first + 64 * j
    ensures !EndsAfter(first, length, k)
  {
    hide RoundAt;
    assert Plus(RoundAt(first, last), 64) <= length by {
      WrapsAround(index, first, length, last);
    }
    if k > last {
      assert RoundAt(first, last) + 64 > length;
    } else if k < last {
      assert RoundAt(first, k) + 64 <= length;
    }
  }

  // The place behind the last round is just beyond 2^32.
  lemma WrapsAround(index: nat, first: nat, length: nat, last: nat)
    requires index < 64 && first == 64 - index && !ChunkFits(index, length) && length < 0x1_0000_0000
    requires first + 64 * last <= length < first + 64 * last + 64
    ensures Plus(first + 64 * last, 64) <= length
  {
    var next := first + 64 * last + 64;
    assert next % 64 == first % 64 && length < next;
    assert next == 0x1_0000_0000 + first % 64;
  }

  // Inside the guard the 32-bit loop test agrees with the unbounded one.
  lemma NoWrap(first: nat, length: nat, i: Word, j: nat)
    requires 0 < first <= 64 && ChunkFits(64 - first, length)
    requires i == first + 64 * j <= length
    ensures Plus(i, 64) <= length <==> i + 64 <= length
    ensures i + 64 <= length ==> Plus(i, 64) == i + 64
  {
    assert i % 64 == first % 64;
  }

  function Adopt(h: array<Word>): Chain
    requires h.Length == 4
    reads h
  {
    Chain(h[0], h[1], h[2], h[3])
  }

  // The counter holds the bit length of m, the chaining value its full blocks,
  // the buffer the bytes after them.
  ghost predicate Tracks(start: Chain, m: seq<Byte>, count: seq<Word>, h: Chain, buffer: seq<Byte>) {
    |buffer| == 64 &&
    count == BitLength(|m|) &&
    h == Absorb(start, m, |m| / 64) &&
    buffer[..|m| % 64] == Rest(m)
  }

  // The bytes after the last full block.
  function Rest(m: seq<Byte>): seq<Byte> {
    m[|m| - |m| % 64..]
  }

  lemma TracksNothing(h: Chain, buffer: seq<Byte>)
    requires |buffer| == 64
    ensures Tracks(h, [], [0, 0], h, buffer)
  {
  }

  lemma TracksBlocks(start: Chain, m: seq<Byte>, n: nat, count: seq<Word>, h: Chain, buffer: seq<Byte>)
    requires 64 * n <= |m| < 64 * n + 64 && |buffer| == 64
    requires count == BitLength(|m|) && h == Absorb(start, m, n) && buffer[..|m| - 64 * n] == m[64 * n..]
    ensures Tracks(start, m, count, h, buffer)
  {
    hide Absorb, BitLength;
    assert |m| / 64 == n && |m| % 64 == |m| - 64 * n;
  }

  // What Tracks says once n and r stand for the quotient and the remainder.
  lemma TracksMeans(start: Chain, m: seq<Byte>, count: seq<Word>, h: Chain, buffer: seq<Byte>)
    returns (n: nat, r: nat)
    requires Tracks(start, m, count, h, buffer)
    ensures 64 * n + r == |m| && r == |m| % 64 && r < 64
    ensures count == BitLength(|m|) && |count| == 2 && count[0] / 8 % 64 == r
    ensures h == Absorb(start, m, n) && m[64 * n..] == buffer[..r]
  {
    hide Compress;
    BufferedBytes(|m|);
    n, r := |m| / 64, |m| % 64;
  }

  lemma ChunkFollows(start: Chain, m: seq<Byte>, n: nat, r: nat, head: seq<Byte>, chunk: seq<Byte>)
    requires 64 * n + r == |m| && m[64 * n..] == head
    ensures Absorb(start, m + chunk, n) == Absorb(start, m, n)
    ensures (m + chunk)[64 * n..64 * n + r] == head
    ensures (m + chunk)[64 * n + r..] == chunk
  {
    hide Absorb;
    AbsorbPrefix(start, m, chunk, n);
  }

  // The block that the buffered bytes and the first bytes of a chunk make up.
  lemma FirstBlock(whole: seq<Byte>, k: nat, head: seq<Byte>, chunk: seq<Byte>)
    requires 64 * k + |head| + |chunk| == |whole| && |head| < 64 <= |head| + |chunk|
    requires whole[64 * k..64 * k + |head|] == head && whole[64 * k + |head|..] == chunk
    ensures whole[64 * k..64 * k + 64] == head + chunk[..64 - |head|]
    ensures whole[|whole| - |chunk|..] == chunk
  {
  }

  lemma SameBlock(whole: seq<Byte>, before: nat, chunk: seq<Byte>, i: nat)
    requires before <= |whole| && whole[before..] == chunk && i + 64 <= |chunk|
    ensures chunk[i..i + 64] == whole[before + i..before + i + 64]
  {
  }

  lemma IsPadding(s: seq<Byte>, n: nat)
    requires |s| == PadLength(n) && s[0] == 0x80 && forall i | 0 < i < |s| :: s[i] == 0
    ensures s == Padding(n)
  {
    hide PadLength;
  }

  lemma LastBytes(whole: seq<Byte>, n: nat, head: seq<Byte>, chunk: seq<Byte>, i: nat)
    requires i <= |chunk| && 64 * n + |head| + |chunk| - i == |whole| && |chunk| <= |whole|
    requires whole[64 * n..64 * n + |head|] == head && whole[|whole| - |chunk|..] == chunk
    ensures whole[64 * n..] == head + chunk[i..]
  {
  }

  // Absorbing one more block.
  lemma AbsorbNext(h: Chain, m: seq<Byte>, n: nat, block: seq<Byte>)
    requires 64 * (n + 1) <= |m| && block == m[64 * n..64 * n + 64]
    ensures Absorb(h, m, n + 1) == Compress(Absorb(h, m, n), block)
  {
    hide Compress;
  }

  class MD5 {
    var finalized: bool
    const buffer: array<Byte>  // bytes that did not fill a block yet
    const count: array<Word>   // number of bits, low-order word first
    const state: array<Word>   // the chaining value so far
    const digest: array<Byte>  // the result

    ghost var start: Chain          // the chaining value msg is absorbed into
    ghost var msg: seq<Byte>        // all bytes since construction or finalize
    ghost var hashed: seq<Byte>     // the message that finalize digested

    ghost predicate Shape()
      reads this
    {
      buffer.Length == 64 && count.Length == 2 && state.Length == 4 && digest.Length == 16 &&
      count != state && buffer != digest
    }

    ghost predicate Valid()
      reads this, buffer, count, state, digest
    {
      Shape() &&
      Tracks(start, msg, count[..], Adopt(state), buffer[..]) &&
      (finalized ==> digest[..] == Digest(hashed)) &&
      (!finalized ==> start == IV)
    }

    constructor ()
      ensures Valid() && !finalized && msg == []
      ensures fresh(buffer) && fresh(count) && fresh(state) && fresh(digest)
    {
      hide Tracks, Rest, Digest;
      finalized := false;
      buffer := new Byte[64];
      digest := new Byte[16];
      count := new Word[2][0, 0];
      state := new Word[4][0x67452301, 0xefcdab89, 0x98badcfe, 0x10325476];
      start, msg := IV, [];
      new;
      TracksNothing(IV, buffer[..]);
      assert count[..] == [0, 0];
      assert Valid();
    }

    method Transform(block: array<Byte>, from: nat)
      requires Shape() && from + 64 <= block.Length
      modifies state
      ensures Adopt(state) == Compress(old(Adopt(state)), block[from..from + 64])
    {
      hide Steps, Plus, Words, WordOf;
      var a, b, c, d := state[0], state[1], state[2], state[3];
      ghost var h := Chain(a, b, c, d);
      var x := new Word[16];
      Decode(x, block, from, 64);
      var xs := x[..];
      assert xs == Words(block[from..from + 64]);
      NoSteps(xs, h);
      a, b, c, d := Round1(xs, a, b, c, d, h);
      a, b, c, d := Round2(xs, a, b, c, d, h);
      a, b, c, d := Round3(xs, a, b, c, d, h);
      a, b, c, d := Round4(xs, a, b, c, d, h);
      state[0] := Plus(state[0], a);
      state[1] := Plus(state[1], b);
      state[2] := Plus(state[2], c);
      state[3] := Plus(state[3], d);
    }

    // Adding the bits of a chunk: a carry out of the low word shows as a sum
    // below the addend.
    method CountBits(length: nat)
      requires Shape() && count[..] == BitLength(|msg|) && length < 0x1_0000_0000
      modifies count
      ensures count[..] == BitLength(|msg| + length)
    {
      var shifted: Word := 8 * length % 0x1_0000_0000;
      AddBitLengths(|msg|, length, count[0], count[1], shifted);
      count[0] := Plus(count[0], shifted);
      if count[0] < shifted {
        count[1] := Plus(count[1], 1);
      }
      count[1] := Plus(count[1], length / 0x2000_0000);
    }

    // The full blocks of input from position `first` on; the chunk ends `whole`.
    method TransformBlocks(input: array<Byte>, first: Word, length: nat, ghost whole: seq<Byte>, ghost k: nat)
      returns (i: Word, ghost n: nat)
      requires Shape() && 0 < first <= 64 && first <= length <= input.Length
      requires length <= |whole| && whole[|whole| - length..] == input[..length]
      requires 64 * k == |whole| - length + first && ChunkFits(64 - first, length)
      requires Adopt(state) == Absorb(start, whole, k)
      modifies state
      ensures first <= i <= length && length - i < 64 && 64 * n == |whole| - length + i
      ensures Adopt(state) == Absorb(start, whole, n)
    {
      hide Compress, Absorb;
      ghost var before := |whole| - length;
      i, n := first, k;
      while Plus(i, 64) <= length
        invariant first <= i <= length && n >= k && 64 * n == before + i
        invariant Adopt(state) == Absorb(start, whole, n)
        decreases length - i
      {
        NoWrap(first, length, i, n - k);
        SameBlock(whole, before, input[..length], i);
        assert input[..length][i..i + 64] == input[i..i + 64];
        Transform(input, i);
        AbsorbNext(start, whole, n, input[i..i + 64]);
        n := n + 1;
        i := Plus(i, 64);
      }
      NoWrap(first, length, i, n - k);
    }

    // Fills the buffer and transforms as many blocks as possible; i bytes of the
    // input are used up and index bytes stay buffered.
    method TransformFull(input: array<Byte>, buffered: nat, length: nat, ghost whole: seq<Byte>, ghost k: nat)
      returns (index: nat, i: Word, ghost n: nat)
      requires Shape() && length <= input.Length && input != buffer
      requires buffered < 64 && ChunkFits(buffered, length)
      requires 64 * k + buffered + length == |whole|
      requires whole[64 * k..64 * k + buffered] == buffer[..buffered]
      requires whole[64 * k + buffered..] == input[..length]
      requires Adopt(state) == Absorb(start, whole, k)
      modifies buffer, state
      ensures i <= length && index + length - i < 64
      ensures 64 * n + index + length - i == |whole|
      ensures whole[64 * n..64 * n + index] == buffer[..index]
      ensures Adopt(state) == Absorb(start, whole, n)
    {
      hide Compress, Absorb, ChunkFits;
      index, n := buffered, k;
      var firstpart := 64 - index;
      if length >= firstpart {
        FirstBlock(whole, k, buffer[..index], input[..length]);
        MemCopy(buffer, index, input, 0, firstpart);
        assert input[0..firstpart] == input[..length][..firstpart];
        assert buffer[0..64] == whole[64 * n..64 * n + 64];
        Transform(buffer, 0);
        AbsorbNext(start, whole, n, buffer[0..64]);
        i, n := TransformBlocks(input, firstpart, length, whole, n + 1);
        index := 0;
      } else {
        i := 0;
      }
    }

    method Update(input: array<Byte>, length: nat)
      requires Valid() && length <= input.Length
      requires input != buffer && input != digest
      requires ChunkFits(|msg| % 64, length)
      modifies this`msg, buffer, count, state
      ensures Valid()
      ensures msg == old(msg) + input[..length]
    {
      hide Tracks, Rest, Compress, Absorb, Digest, BitLength, ChunkFits;
      ghost var n, r := TracksMeans(start, msg, count[..], Adopt(state), buffer[..]);
      ChunkFitsShort(r, length);
      assert count[0] == count[..][0];
      var index := count[0] / 8 % 64;
      ghost var whole := msg + input[..length];
      ChunkFollows(start, msg, n, r, buffer[..index], input[..length]);
      CountBits(length);
      var i: Word;
      index, i, n := TransformFull(input, index, length, whole, n);
      BufferRest(input, index, i, length, whole, n);
      msg := whole;
    }

    // Copies what did not fill a block behind the bytes that are buffered.
    method BufferRest(input: array<Byte>, index: nat, i: nat, length: nat, ghost whole: seq<Byte>, ghost n: nat)
      requires Shape() && i <= length <= input.Length && input != buffer
      requires index + length - i < 64 && 64 * n + index + length - i == |whole| && length <= |whole|
      requires whole[64 * n..64 * n + index] == buffer[..index] && whole[|whole| - length..] == input[..length]
      requires count[..] == BitLength(|whole|) && Adopt(state) == Absorb(start, whole, n)
      modifies buffer
      ensures Tracks(start, whole, count[..], Adopt(state), buffer[..])
    {
      hide Tracks, Rest, Compress, Absorb, BitLength;
      ghost var head, tail := buffer[..index], input[i..length];
      LastBytes(whole, n, head, input[..length], i);
      assert input[..length][i..] == tail;
      MemCopy(buffer, index, input, i, length - i);
      assert buffer[..|head + tail|] == head + tail;
      TracksBlocks(start, whole, n, count[..], Adopt(state), buffer[..]);
    }

    // Feeds the padding and the length before padding.
    method Pad()
      requires Valid()
      modifies this`msg, buffer, count, state
      ensures Valid() && msg == Padded(old(msg))
    {
      hide Tracks, Rest, Absorb, Digest, BitLength, Compress, ChunkFits;
      ghost var n, r := TracksMeans(start, msg, count[..], Adopt(state), buffer[..]);
      var bits := new Byte[8];
      Encode(bits, count, 8);
      assert bits[..] == bits[..8] && count[..2] == count[..];
      var index := count[0] / 8 % 64;
      assert count[0] == count[..][0];
      var padLen := if index < 56 then 56 - index else 120 - index;
      PadLengthIs(|msg|, n, index);
      var padding := new Byte[64](i => if i == 0 then 0x80 else 0);
      IsPadding(padding[..padLen], |msg|);
      ghost var whole := msg;
      ShortChunkFits(|msg| % 64, padLen);
      Update(padding, padLen);
      ShortChunkFits(|msg| % 64, 8);
      Update(bits, 8);
      assert msg == whole + padding[..padLen] + bits[..8];
    }

    // Pads, then stores the digest, once.
    method Finalize()
      requires Valid()
      modifies this, buffer, count, state, digest
      ensures Valid() && finalized
      ensures old(finalized) ==>
        hashed == old(hashed) && msg == old(msg) && start == old(start) && state[..] == old(state[..]) &&
        count[..] == old(count[..]) && buffer[..] == old(buffer[..]) && digest[..] == old(digest[..])
      ensures !old(finalized) ==> hashed == old(msg) && msg == []
    {
      hide Tracks, Rest, Absorb, Padded, Digest;
      if !finalized {
        ghost var whole := msg;
        Pad();
        StoreDigest(whole);
        forall i | 0 <= i < 64 {
          buffer[i] := 0;
        }
        count[0], count[1] := 0, 0;
        TracksNothing(Adopt(state), buffer[..]);
        assert count[..] == [0, 0];
        finalized := true;
        hashed, msg, start := whole, [], Adopt(state);
        assert Valid();
      }
    }

    method StoreDigest(ghost whole: seq<Byte>)
      requires Valid() && !finalized && msg == Padded(whole)
      modifies digest
      ensures digest[..] == Digest(whole)
    {
      hide Absorb, Padded, Bytes;
      Encode(digest, state, 16);
      assert digest[..16] == digest[..] && state[..4] == state[..];
      assert state[..] == [state[0], state[1], state[2], state[3]];
    }

    method HexDigest() returns (hex: string)
      requires Valid()
      ensures hex == if finalized then Hex(Digest(hashed)) else ""
    {
      if !finalized {
        return "";
      }
      hex := "";
      for i := 0 to 16
        invariant hex == Hex(digest[..i])
      {
        HexAppend(digest[..i], digest[i]);
        assert digest[..i] + [digest[i]] == digest[..i + 1];
        hex := hex + [HexDigit(digest[i] / 16), HexDigit(digest[i] % 16)];
      }
      assert digest[..16] == digest[..];
    }

    // The digest of a text at once; its length is cut to 32 bits on the way.
    constructor OfText(text: array<Byte>)
      requires ChunkFits(0, ToSize(text.Length))
      ensures Valid() && finalized && hashed == text[..ToSize(text.Length)]
      ensures fresh(buffer) && fresh(count) && fresh(state) && fresh(digest)
    {
      hide Tracks, Rest, Digest;
      finalized := false;
      buffer := new Byte[64];
      digest := new Byte[16];
      count := new Word[2][0, 0];
      state := new Word[4][0x67452301, 0xefcdab89, 0x98badcfe, 0x10325476];
      start, msg := IV, [];
      new;
      TracksNothing(IV, buffer[..]);
      assert count[..] == [0, 0];
      assert Valid();
      Update(text, ToSize(text.Length));
      Finalize();
    }
  }

  // The convenience function md5: the whole text, as long as 32 bits hold its length.
  method Md5Hex(text: array<Byte>) returns (hex: string)
    requires ChunkFits(0, ToSize(text.Length))
    ensures hex == Hex(Digest(text[..ToSize(text.Length)]))
    ensures text.Length < 0x1_0000_0000 ==> hex == Hex(Digest(text[..]))
  {
    var md5 := new MD5.OfText(text);
    hex := md5.HexDigest();
    assert text[..text.Length] == text[..];
  }

  ghost function Joined(chunks: seq<array<Byte>>): seq<Byte>
    reads chunks
  {
    if chunks == [] then [] else Joined(chunks[..|chunks| - 1]) + chunks[|chunks| - 1][..]
  }

  // However a message is cut into chunks, feeding them one by one yields the
  // digest that RFC 1321 gives the whole message.
  method AnyChunking(chunks: seq<array<Byte>>) returns (hex: string)
    requires forall c | c in chunks :: c.Length < 0x1_0000_0000 - 64
    ensures hex == Hex(Digest(Joined(chunks)))
  {
    hide Digest, Hex, Tracks;
    var md5 := new MD5();
    for n := 0 to |chunks|
      invariant md5.Valid() && !md5.finalized && md5.msg == Joined(chunks[..n])
      invariant fresh(md5) && fresh(md5.buffer) && fresh(md5.count) && fresh(md5.state) && fresh(md5.digest)
    {
      ShortChunkFits(|md5.msg| % 64, chunks[n].Length);
      md5.Update(chunks[n], chunks[n].Length);
      assert chunks[..n + 1][..n] == chunks[..n] && chunks[n][..chunks[n].Length] == chunks[n][..];
    }
    assert chunks[..|chunks|] == chunks;
    md5.Finalize();
    hex := md5.HexDigest();
  }

  // Once finalized, an object keeps its hex digest whatever is fed to it later.
  method FurtherUse(md5: MD5, chunks: seq<array<Byte>>) returns (hex: string)
    requires md5.Valid() && md5.finalized
    requires forall c | c in chunks :: c.Length < 0x1_0000_0000 - 64 && c != md5.buffer && c != md5.digest
    modifies md5, md5.buffer, md5.count, md5.state, md5.digest
    ensures md5.Valid() && md5.finalized && hex == Hex(Digest(old(md5.hashed)))
  {
    hide Digest, Hex, Tracks;
    for n := 0 to |chunks|
      invariant md5.Valid() && md5.finalized && md5.hashed == old(md5.hashed)
    {
      ShortChunkFits(|md5.msg| % 64, chunks[n].Length);
      md5.Update(chunks[n], chunks[n].Length);
      md5.Finalize();
    }
    hex := md5.HexDigest();
  }
}
