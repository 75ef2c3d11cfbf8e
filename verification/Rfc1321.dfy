// The MD5 message digest as RFC 1321 defines it, without buffers or counters:
// the reference that the streaming class of Md5.dfy is proved against.

module Rfc1321 {

  type Byte = b: int | 0 <= b < 0x100

  type Word = w: int | 0 <= w < 0x1_0000_0000

  // The four-word buffer (A, B, C, D) of section 3.3.
  datatype Chain = Chain(a: Word, b: Word, c: Word, d: Word)

  const IV := Chain(0x67452301, 0xefcdab89, 0x98badcfe, 0x10325476)

  // ---------------------------------------------------------------- words

  function Plus(x: Word, y: Word): Word {
    (x + y) % 0x1_0000_0000
  }

  function Minus(x: Word, y: Word): Word {
    (x - y) % 0x1_0000_0000
  }

  lemma PlusMinus(x: Word, y: Word)
    ensures Minus(Plus(x, y), y) == x
    ensures Plus(Minus(x, y), y) == x
  {
  }

  function Pow2(n: nat): (r: nat)
    ensures r > 0
  {
    if n == 0 then 1 else 2 * Pow2(n - 1)
  }

  // X <<< s: the s high bits of x reappear below its 32 - s low bits.
  function RotL(x: Word, s: nat): Word
    requires 0 < s < 32
  {
    Pow2Split(s);
    RotBounds(x, Pow2(s), Pow2(32 - s));
    x % Pow2(32 - s) * Pow2(s) + x / Pow2(32 - s)
  }

  function RotR(x: Word, s: nat): Word
    requires 0 < s < 32
  {
    RotL(x, 32 - s)
  }

  lemma {:induction false} Pow2Add(m: nat, n: nat)
    ensures Pow2(m) * Pow2(n) == Pow2(m + n)
  {
    if m > 0 {
      Pow2Add(m - 1, n);
      assert Pow2(m) * Pow2(n) == 2 * (Pow2(m - 1) * Pow2(n));
    }
  }

  lemma Pow2Of4()
    ensures Pow2(4) == 16
  {
  }

  lemma Pow2Split(s: nat)
    requires s < 32
    ensures Pow2(s) * Pow2(32 - s) == 0x1_0000_0000
  {
    hide Pow2;
    Pow2Of4();
    Pow2Add(4, 4);
    Pow2Add(8, 8);
    Pow2Add(16, 16);
    Pow2Add(s, 32 - s);
  }

  lemma RotBounds(x: Word, p: nat, q: nat)
    requires p > 0 && q > 0 && p * q == 0x1_0000_0000
    ensures 0 <= x / q < p
    ensures 0 <= x % q * p + x / q < 0x1_0000_0000
  {
    DivBelow(x, p, q);
    assert x % q * p <= (q - 1) * p == q * p - p;
  }

  lemma DivBelow(x: int, p: int, q: int)
    requires q > 0 && x < p * q
    ensures x / q < p
  {
    assert x / q * q <= x;
    assert x / q - p < 0 by {
      assert (x / q - p) * q < 0;
    }
  }

  // Rotating back by the same amount restores the word.
  lemma RotInverse(x: Word, s: nat)
    requires 0 < s < 32
    ensures RotR(RotL(x, s), s) == x
    ensures RotL(RotR(x, s), s) == x
  {
    RotUndo(x, s);
    RotUndo(x, 32 - s);
  }

  lemma RotUndo(x: Word, s: nat)
    requires 0 < s < 32
    ensures RotL(RotL(x, s), 32 - s) == x
  {
    var p, q := Pow2(s), Pow2(32 - s);
    Pow2Split(s);
    RotBounds(x, p, q);
    var y := RotL(x, s);
    assert y == x % q * p + x / q;
    DivModUnique(y, p, x % q, x / q);
  }

  lemma DivModUnique(y: int, p: int, q: int, r: int)
    requires p > 0 && 0 <= r < p && y == q * p + r
    ensures y / p == q && y % p == r
  {
    assert y == y / p * p + y % p;
    OneDivision(p, q, r, y / p, y % p);
  }

  lemma OneDivision(p: int, q: int, r: int, q2: int, r2: int)
    requires 0 <= r < p && 0 <= r2 < p && q * p + r == q2 * p + r2
    ensures q == q2 && r == r2
  {
    assert (q - q2) * p == r2 - r;
    SmallMultiple(q - q2, p);
  }

  lemma SmallMultiple(e: int, p: int)
    requires -p < e * p < p
    ensures e == 0
  {
    if e >= 1 {
      AtLeastOne(e, p);
    } else if e <= -1 {
      AtLeastOne(-e, p);
    }
  }

  lemma AtLeastOne(e: int, p: int)
    requires e >= 1 && p > 0
    ensures e * p >= p
  {
    assert (e - 1) * p >= 0;
  }

  // ------------------------------------------- the functions of section 3.4

  function Bits(w: Word): bv32 {
    w as bv32
  }

  function F(x: Word, y: Word, z: Word): Word {
    FBits(Bits(x), Bits(y), Bits(z)) as int
  }

  function G(x: Word, y: Word, z: Word): Word {
    GBits(Bits(x), Bits(y), Bits(z)) as int
  }

  function H(x: Word, y: Word, z: Word): Word {
    HBits(Bits(x), Bits(y), Bits(z)) as int
  }

  function I(x: Word, y: Word, z: Word): Word {
    IBits(Bits(x), Bits(y), Bits(z)) as int
  }

  function FBits(x: bv32, y: bv32, z: bv32): bv32 {
    (x & y) | (!x & z)
  }

  function GBits(x: bv32, y: bv32, z: bv32): bv32 {
    (x & z) | (y & !z)
  }

  function HBits(x: bv32, y: bv32, z: bv32): bv32 {
    x ^ y ^ z
  }

  function IBits(x: bv32, y: bv32, z: bv32): bv32 {
    y ^ (x | !z)
  }

  // Words and bit vectors are the same thing.
  lemma BitsOf(x: bv32)
    ensures 0 <= x as int < 0x1_0000_0000 && Bits(x as int) == x
  {
  }

  lemma OnBits(x: bv32, y: bv32, z: bv32)
    ensures F(x as int, y as int, z as int) == FBits(x, y, z) as int
    ensures G(x as int, y as int, z as int) == GBits(x, y, z) as int
    ensures H(x as int, y as int, z as int) == HBits(x, y, z) as int
    ensures I(x as int, y as int, z as int) == IBits(x, y, z) as int
  {
    hide FBits, GBits, HBits, IBits, Bits;
    BitsOf(x);
    BitsOf(y);
    BitsOf(z);
  }

  // f is y where x has ones, and z where it has zeros.
  predicate Selects(f: bv32, x: bv32, y: bv32, z: bv32) {
    f & x == y & x && f & !x == z & !x
  }

  // f is x with the bits flipped where m has ones.
  predicate Flips(f: bv32, x: bv32, m: bv32) {
    f & m == !x & m && f & !m == x & !m
  }

  // F selects y or z by x, G selects x or y by z; H flips x where y and z differ,
  // I flips y where x has a one or z a zero.
  lemma BitLaws(x: bv32, y: bv32, z: bv32)
    ensures Selects(Bits(F(x as int, y as int, z as int)), x, y, z)
    ensures Selects(Bits(G(x as int, y as int, z as int)), z, x, y)
    ensures Flips(Bits(H(x as int, y as int, z as int)), x, y ^ z)
    ensures Flips(Bits(I(x as int, y as int, z as int)), y, x | !z)
  {
    hide F, G, H, I, FBits, GBits, HBits, IBits, Bits, Selects, Flips;
    OnBits(x, y, z);
    BitsOf(FBits(x, y, z));
    BitsOf(GBits(x, y, z));
    BitsOf(HBits(x, y, z));
    BitsOf(IBits(x, y, z));
    FSelects(x, y, z);
    GSelects(x, y, z);
    HFlips(x, y, z);
    IFlips(x, y, z);
  }

  lemma IsSelected(f: bv32, x: bv32, y: bv32, z: bv32)
    requires f & x == y & x && f & !x == z & !x
    ensures Selects(f, x, y, z)
  {
  }

  lemma IsFlipped(f: bv32, x: bv32, m: bv32)
    requires f & m == !x & m && f & !m == x & !m
    ensures Flips(f, x, m)
  {
  }

  lemma FSelects(x: bv32, y: bv32, z: bv32)
    ensures Selects(FBits(x, y, z), x, y, z)
  {
    hide FBits;
    FBitsMasked(x, y, z);
    IsSelected(FBits(x, y, z), x, y, z);
  }

  lemma FBitsMasked(x: bv32, y: bv32, z: bv32)
    ensures FBits(x, y, z) & x == y & x
    ensures FBits(x, y, z) & !x == z & !x
  {
  }

  lemma GSelects(x: bv32, y: bv32, z: bv32)
    ensures Selects(GBits(x, y, z), z, x, y)
  {
    hide GBits;
    GBitsMasked(x, y, z);
    IsSelected(GBits(x, y, z), z, x, y);
  }

  lemma GBitsMasked(x: bv32, y: bv32, z: bv32)
    ensures GBits(x, y, z) & z == x & z
    ensures GBits(x, y, z) & !z == y & !z
  {
  }

  lemma HFlips(x: bv32, y: bv32, z: bv32)
    ensures Flips(HBits(x, y, z), x, y ^ z)
  {
    hide HBits;
    HBitsMasked(x, y, z);
    IsFlipped(HBits(x, y, z), x, y ^ z);
  }

  lemma HBitsMasked(x: bv32, y: bv32, z: bv32)
    ensures HBits(x, y, z) & (y ^ z) == !x & (y ^ z)
    ensures HBits(x, y, z) & !(y ^ z) == x & !(y ^ z)
  {
  }

  lemma IFlips(x: bv32, y: bv32, z: bv32)
    ensures Flips(IBits(x, y, z), y, x | !z)
  {
    hide IBits;
    IBitsMasked(x, y, z);
    IsFlipped(IBits(x, y, z), y, x | !z);
  }

  lemma IBitsMasked(x: bv32, y: bv32, z: bv32)
    ensures IBits(x, y, z) & (x | !z) == !y & (x | !z)
    ensures IBits(x, y, z) & !(x | !z) == y & !(x | !z)
  {
  }

  // -------------------------------------------- the 64 steps of section 3.4

  // The function that step i applies to (B, C, D).
  function Mix(i: nat, b: Word, c: Word, d: Word): Word
    requires i < 64
  {
    if i < 16 then F(b, c, d)
    else if i < 32 then G(b, c, d)
    else if i < 48 then H(b, c, d)
    else I(b, c, d)
  }

  // The message word that step i reads.
  function Index(i: nat): (k: nat)
    requires i < 64
    ensures k < 16
  {
    if i < 16 then i
    else if i < 32 then (5 * i + 1) % 16
    else if i < 48 then (3 * i + 5) % 16
    else 7 * i % 16
  }

  // The rotation of step i: each round repeats its own four amounts.
  function Shift(i: nat): (s: nat)
    requires i < 64
    ensures 0 < s < 32
  {
    var k := i % 4;
    if i < 16 then FourWay(k, 7, 12, 17, 22)
    else if i < 32 then FourWay(k, 5, 9, 14, 20)
    else if i < 48 then FourWay(k, 4, 11, 16, 23)
    else FourWay(k, 6, 10, 15, 21)
  }

  function FourWay<X>(k: nat, x0: X, x1: X, x2: X, x3: X): X {
    if k == 0 then x0 else if k == 1 then x1 else if k == 2 then x2 else x3
  }

  // Table T: the integer part of 4294967296 * abs(sin(i + 1)).
  function T(i: nat): Word
    requires i < 64
  {
    if i < 16 then T1(i) else if i < 32 then T2(i) else if i < 48 then T3(i) else T4(i)
  }

  function T1(i: nat): Word {
    if i < 4 then FourWay(i % 4, 0xd76aa478, 0xe8c7b756, 0x242070db, 0xc1bdceee)
    else if i < 8 then FourWay(i % 4, 0xf57c0faf, 0x4787c62a, 0xa8304613, 0xfd469501)
    else if i < 12 then FourWay(i % 4, 0x698098d8, 0x8b44f7af, 0xffff5bb1, 0x895cd7be)
    else FourWay(i % 4, 0x6b901122, 0xfd987193, 0xa679438e, 0x49b40821)
  }

  function T2(i: nat): Word {
    if i < 20 then FourWay(i % 4, 0xf61e2562, 0xc040b340, 0x265e5a51, 0xe9b6c7aa)
    else if i < 24 then FourWay(i % 4, 0xd62f105d, 0x02441453, 0xd8a1e681, 0xe7d3fbc8)
    else if i < 28 then FourWay(i % 4, 0x21e1cde6, 0xc33707d6, 0xf4d50d87, 0x455a14ed)
    else FourWay(i % 4, 0xa9e3e905, 0xfcefa3f8, 0x676f02d9, 0x8d2a4c8a)
  }

  function T3(i: nat): Word {
    if i < 36 then FourWay(i % 4, 0xfffa3942, 0x8771f681, 0x6d9d6122, 0xfde5380c)
    else if i < 40 then FourWay(i % 4, 0xa4beea44, 0x4bdecfa9, 0xf6bb4b60, 0xbebfbc70)
    else if i < 44 then FourWay(i % 4, 0x289b7ec6, 0xeaa127fa, 0xd4ef3085, 0x04881d05)
    else FourWay(i % 4, 0xd9d4d039, 0xe6db99e5, 0x1fa27cf8, 0xc4ac5665)
  }

  function T4(i: nat): Word {
    if i < 52 then FourWay(i % 4, 0xf4292244, 0x432aff97, 0xab9423a7, 0xfc93a039)
    else if i < 56 then FourWay(i % 4, 0x655b59c3, 0x8f0ccc92, 0xffeff47d, 0x85845dd1)
    else if i < 60 then FourWay(i % 4, 0x6fa87e4f, 0xfe2ce6e0, 0xa3014314, 0x4e0811a1)
    else FourWay(i % 4, 0xf7537e82, 0xbd3af235, 0x2ad7d2bb, 0xeb86d391)
  }

  // a = b + ((a + Mix(b, c, d) + x + t) <<< s)
  function Operation(mix: Word, a: Word, b: Word, x: Word, s: nat, t: Word): Word
    requires 0 < s < 32
  {
    Plus(RotL(Plus(Plus(Plus(a, mix), x), t), s), b)
  }

  // The register a that Operation turned into the given result.
  function OperationUndone(mix: Word, result: Word, b: Word, x: Word, s: nat, t: Word): Word
    requires 0 < s < 32
  {
    Minus(Minus(Minus(RotR(Minus(result, b), s), t), x), mix)
  }

  lemma OperationInverse(mix: Word, a: Word, b: Word, x: Word, s: nat, t: Word)
    requires 0 < s < 32
    ensures OperationUndone(mix, Operation(mix, a, b, x, s, t), b, x, s, t) == a
    ensures Operation(mix, OperationUndone(mix, a, b, x, s, t), b, x, s, t) == a
  {
    hide RotL, RotR, Plus, Minus;
    var sum := Plus(Plus(Plus(a, mix), x), t);
    RotInverse(sum, s);
    PlusMinus(RotL(sum, s), b);
    PlusMinus(Plus(Plus(a, mix), x), t);
    PlusMinus(Plus(a, mix), x);
    PlusMinus(a, mix);
    var rotated := Minus(a, b);
    RotInverse(rotated, s);
    PlusMinus(a, b);
    var back := RotR(rotated, s);
    PlusMinus(back, t);
    PlusMinus(Minus(back, t), x);
    PlusMinus(Minus(Minus(back, t), x), mix);
  }

  // Operation i of the list in section 3.4.
  function Operate(i: nat, a: Word, b: Word, c: Word, d: Word, x: seq<Word>): Word
    requires i < 64 && |x| == 16
  {
    Operation(Mix(i, b, c, d), a, b, x[Index(i)], Shift(i), T(i))
  }

  // One step, after which the registers change roles: (A, B, C, D) becomes
  // (D, new A, B, C).
  function Step(i: nat, x: seq<Word>, h: Chain): Chain
    requires i < 64 && |x| == 16
  {
    Chain(h.d, Operate(i, h.a, h.b, h.c, h.d, x), h.b, h.c)
  }

  function Steps(n: nat, x: seq<Word>, h: Chain): Chain
    requires n <= 64 && |x| == 16
  {
    if n == 0 then h else Step(n - 1, x, Steps(n - 1, x, h))
  }

  // The step that undoes Step.
  function Unstep(i: nat, x: seq<Word>, h: Chain): Chain
    requires i < 64 && |x| == 16
  {
    Chain(OperationUndone(Mix(i, h.c, h.d, h.a), h.b, h.c, x[Index(i)], Shift(i), T(i)), h.c, h.d, h.a)
  }

  function Unsteps(n: nat, x: seq<Word>, h: Chain): Chain
    requires n <= 64 && |x| == 16
  {
    if n == 0 then h else Unsteps(n - 1, x, Unstep(n - 1, x, h))
  }

  lemma StepInverse(i: nat, x: seq<Word>, h: Chain)
    requires i < 64 && |x| == 16
    ensures Unstep(i, x, Step(i, x, h)) == h
    ensures Step(i, x, Unstep(i, x, h)) == h
  {
    hide T, Index, Mix, Shift, Operation, OperationUndone;
    OperationInverse(Mix(i, h.b, h.c, h.d), h.a, h.b, x[Index(i)], Shift(i), T(i));
    OperationInverse(Mix(i, h.c, h.d, h.a), h.b, h.c, x[Index(i)], Shift(i), T(i));
  }

  // The 64 steps are a bijection on the four words, whatever the block holds.
  lemma {:induction false} StepsInverse(n: nat, x: seq<Word>, h: Chain)
    requires n <= 64 && |x| == 16
    ensures Unsteps(n, x, Steps(n, x, h)) == h
    ensures Steps(n, x, Unsteps(n, x, h)) == h
  {
    if n > 0 {
      StepInverse(n - 1, x, Steps(n - 1, x, h));
      StepsInverse(n - 1, x, h);
      var g := Unstep(n - 1, x, h);
      StepsInverse(n - 1, x, g);
      StepInverse(n - 1, x, h);
    }
  }

  // ---------------------------------------------------- words and their bytes

  // Byte k of a word, low-order byte first.
  function ByteOf(w: Word, k: nat): Byte
    requires k < 4
  {
    if k == 0 then w % 0x100
    else if k == 1 then w / 0x100 % 0x100
    else if k == 2 then w / 0x100 / 0x100 % 0x100
    else w / 0x100 / 0x100 / 0x100
  }

  function WordOf(b0: Byte, b1: Byte, b2: Byte, b3: Byte): Word {
    b0 + 0x100 * (b1 + 0x100 * (b2 + 0x100 * b3))
  }

  function Bytes(ws: seq<Word>): (bs: seq<Byte>)
    ensures |bs| == 4 * |ws|
  {
    seq(4 * |ws|, k requires 0 <= k < 4 * |ws| => ByteOf(ws[k / 4], k % 4))
  }

  function Words(bs: seq<Byte>): (ws: seq<Word>)
    requires |bs| % 4 == 0
    ensures |ws| == |bs| / 4
  {
    seq(|bs| / 4, i requires 0 <= i < |bs| / 4 => WordOf(bs[4 * i], bs[4 * i + 1], bs[4 * i + 2], bs[4 * i + 3]))
  }

  lemma WordBytes(w: Word, b0: Byte, b1: Byte, b2: Byte, b3: Byte)
    ensures WordOf(ByteOf(w, 0), ByteOf(w, 1), ByteOf(w, 2), ByteOf(w, 3)) == w
    ensures ByteOf(WordOf(b0, b1, b2, b3), 0) == b0
    ensures ByteOf(WordOf(b0, b1, b2, b3), 1) == b1
    ensures ByteOf(WordOf(b0, b1, b2, b3), 2) == b2
    ensures ByteOf(WordOf(b0, b1, b2, b3), 3) == b3
  {
    var high2 := b2 + 0x100 * b3;
    var high1 := b1 + 0x100 * high2;
    assert (b0 + 0x100 * high1) / 0x100 == high1;
    assert high1 / 0x100 == high2;
  }

  // Decoding what was encoded, and encoding what was decoded, change nothing.
  lemma WordsOfBytes(ws: seq<Word>)
    ensures Words(Bytes(ws)) == ws
  {
    hide ByteOf, WordOf;
    var bs := Bytes(ws);
    forall i | 0 <= i < |ws| ensures Words(bs)[i] == ws[i] {
      ByteAt(ws, i, 0);
      ByteAt(ws, i, 1);
      ByteAt(ws, i, 2);
      ByteAt(ws, i, 3);
      WordBytes(ws[i], 0, 0, 0, 0);
    }
    assert |Words(bs)| == |ws|;
  }

  lemma ByteAt(ws: seq<Word>, i: nat, k: nat)
    requires i < |ws| && k < 4
    ensures Bytes(ws)[4 * i + k] == ByteOf(ws[i], k)
  {
    hide ByteOf;
    assert (4 * i + k) / 4 == i && (4 * i + k) % 4 == k;
  }

  lemma BytesOfWords(bs: seq<Byte>)
    requires |bs| % 4 == 0
    ensures Bytes(Words(bs)) == bs
  {
    hide ByteOf, WordOf;
    forall k | 0 <= k < |bs| ensures Bytes(Words(bs))[k] == bs[k] {
      var i := k / 4;
      WordBytes(0, bs[4 * i], bs[4 * i + 1], bs[4 * i + 2], bs[4 * i + 3]);
      assert k == 4 * i + k % 4;
    }
  }

  // --------------------------------------------- sections 3.1, 3.2, 3.4, 3.5

  function Zeros(n: nat): seq<Byte> {
    seq(n, _ => 0)
  }

  // The number of padding bytes after a message of n bytes: the least positive
  // count that leaves the length 8 bytes short of a multiple of 64.
  function PadLength(n: nat): (p: nat)
    ensures 1 <= p <= 64 && (n + p) % 64 == 56
  {
    1 + (55 - n) % 64
  }

  lemma PadLengthLeast(n: nat, k: nat)
    requires 1 <= k && (n + k) % 64 == 56
    ensures PadLength(n) <= k
  {
    hide PadLength;
    var p := PadLength(n);
    var a, b := (n + k) / 64, (n + p) / 64;
    assert n + k == 64 * a + 56 && n + p == 64 * b + 56;
    assert k - p == 64 * (a - b);
  }

  function Padding(n: nat): seq<Byte> {
    [0x80] + Zeros(PadLength(n) - 1)
  }

  // The bit length of n bytes as two words, low-order word first; only the
  // low-order 64 bits are used.
  function BitLength(n: nat): seq<Word> {
    [8 * n % 0x1_0000_0000, 8 * n / 0x1_0000_0000 % 0x1_0000_0000]
  }

  function Padded(m: seq<Byte>): (r: seq<Byte>)
    ensures |r| % 64 == 0
  {
    PaddedTotal(|m|);
    m + Padding(|m|) + Bytes(BitLength(|m|))
  }

  lemma PaddedTotal(n: nat)
    ensures (n + PadLength(n) + 8) % 64 == 0
  {
    var q := (n + PadLength(n)) / 64;
    assert n + PadLength(n) + 8 == 64 * (q + 1);
  }

  // Below 2^61 bytes, where the bit length fits 64 bits, no two messages are
  // padded to the same bytes.
  lemma PaddedInjective(m: seq<Byte>, n: seq<Byte>)
    requires |m| < 0x2000_0000_0000_0000 && |n| < 0x2000_0000_0000_0000
    requires Padded(m) == Padded(n)
    ensures m == n
  {
    var p, q := Padded(m), Padded(n);
    assert p[|p| - 8..] == Bytes(BitLength(|m|)) && q[|q| - 8..] == Bytes(BitLength(|n|));
    WordsOfBytes(BitLength(|m|));
    WordsOfBytes(BitLength(|n|));
    BitLengthInjective(|m|, |n|);
    assert p[..|m|] == m && q[..|n|] == n;
  }

  lemma BitLengthInjective(m: nat, n: nat)
    requires m < 0x2000_0000_0000_0000 && n < 0x2000_0000_0000_0000
    requires BitLength(m) == BitLength(n)
    ensures m == n
  {
    assert 8 * m / 0x1_0000_0000 < 0x1_0000_0000 && 8 * n / 0x1_0000_0000 < 0x1_0000_0000;
    assert BitLength(m)[0] == BitLength(n)[0] && BitLength(m)[1] == BitLength(n)[1];
  }

  // The chaining value h after one 64-byte block.
  function Compress(h: Chain, block: seq<Byte>): Chain
    requires |block| == 64
  {
    var g := Steps(64, Words(block), h);
    Chain(Plus(h.a, g.a), Plus(h.b, g.b), Plus(h.c, g.c), Plus(h.d, g.d))
  }

  // The chaining value after the first n blocks of m.
  function Absorb(h: Chain, m: seq<Byte>, n: nat): Chain
    requires 64 * n <= |m|
  {
    if n == 0 then h else Compress(Absorb(h, m, n - 1), m[64 * (n - 1)..64 * n])
  }

  // Bytes that follow the first n blocks do not matter.
  lemma {:induction false} AbsorbPrefix(h: Chain, m: seq<Byte>, more: seq<Byte>, n: nat)
    requires 64 * n <= |m|
    ensures Absorb(h, m + more, n) == Absorb(h, m, n)
  {
    hide Compress;
    if n > 0 {
      AbsorbPrefix(h, m, more, n - 1);
      assert (m + more)[64 * (n - 1)..64 * n] == m[64 * (n - 1)..64 * n];
    }
  }

  function Output(h: Chain): seq<Byte> {
    Bytes([h.a, h.b, h.c, h.d])
  }

  function Digest(m: seq<Byte>): (d: seq<Byte>)
    ensures |d| == 16
  {
    Output(Absorb(IV, Padded(m), |Padded(m)| / 64))
  }

  // ------------------------------------------------------------- hexadecimal

  function HexDigit(n: nat): char
    requires n < 16
  {
    "0123456789abcdef"[n]
  }

  function Hex(bs: seq<Byte>): (s: string)
    ensures |s| == 2 * |bs|
    ensures forall c | c in s :: '0' <= c <= '9' || 'a' <= c <= 'f'
  {
    if bs == [] then "" else [HexDigit(bs[0] / 16), HexDigit(bs[0] % 16)] + Hex(bs[1..])
  }

  lemma {:induction false} HexAppend(bs: seq<Byte>, b: Byte)
    ensures Hex(bs + [b]) == Hex(bs) + [HexDigit(b / 16), HexDigit(b % 16)]
  {
    if bs != [] {
      assert (bs + [b])[1..] == bs[1..] + [b];
      HexAppend(bs[1..], b);
    }
  }

  lemma HexDigitInjective(m: nat, n: nat)
    requires m < 16 && n < 16 && HexDigit(m) == HexDigit(n)
    ensures m == n
  {
  }

  lemma {:induction false} HexInjective(a: seq<Byte>, b: seq<Byte>)
    requires Hex(a) == Hex(b)
    ensures a == b
  {
    hide HexDigit;
    if a != [] && b != [] {
      var s, t := Hex(a), Hex(b);
      assert s[0] == HexDigit(a[0] / 16) && s[1] == HexDigit(a[0] % 16);
      assert t[0] == HexDigit(b[0] / 16) && t[1] == HexDigit(b[0] % 16);
      HexDigitInjective(a[0] / 16, b[0] / 16);
      HexDigitInjective(a[0] % 16, b[0] % 16);
      assert s[2..] == Hex(a[1..]) && t[2..] == Hex(b[1..]);
      HexInjective(a[1..], b[1..]);
      assert a == [a[0]] + a[1..] && b == [b[0]] + b[1..];
    }
  }
}
