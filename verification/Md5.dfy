/** MD5: the block transformation of RFC 1321 and the unrolled code of
    crypt/md5-block.c that computes it. */
module Md5 {
  import opened Bits
  import opened ByteOrder

  datatype Md5State = Md5State(a: Word, b: Word, c: Word, d: Word)

  function W32(v: nat): Word { ToBits(32, v) }

  function InitialState(): Md5State {
    Md5State(W32(0x67452301), W32(0xefcdab89), W32(0x98badcfe), W32(0x10325476))
  }

  // ------------------------------------------------ RFC 1321, section 3.4

  function F(x: Word, y: Word, z: Word): Word { Or(And(x, y), And(Not(x), z)) }
  function G(x: Word, y: Word, z: Word): Word { Or(And(x, z), And(y, Not(z))) }
  function H(x: Word, y: Word, z: Word): Word { Xor(Xor(x, y), z) }
  function I(x: Word, y: Word, z: Word): Word { Xor(y, Or(x, Not(z))) }

  /** Bit by bit: F chooses by x, G by z, H is the parity. */
  lemma MixBits(x: Word, y: Word, z: Word, b: nat)
    requires b < 32
    ensures F(x, y, z)[b] == if x[b] then y[b] else z[b]
    ensures G(x, y, z)[b] == if z[b] then x[b] else y[b]
    ensures H(x, y, z)[b] == ((x[b] != y[b]) != z[b])
    ensures I(x, y, z)[b] == (y[b] != (z[b] ==> x[b]))
  {
  }

  /** The registers start with the bytes 01 23 45 67 89 ab cd ef and the same
      backwards. */
  lemma InitialBytes()
    ensures Store(Little, Val(InitialState().a), 4) == [0x01, 0x23, 0x45, 0x67]
    ensures Store(Little, Val(InitialState().b), 4) == [0x89, 0xab, 0xcd, 0xef]
    ensures Store(Little, Val(InitialState().c), 4) == [0xfe, 0xdc, 0xba, 0x98]
    ensures Store(Little, Val(InitialState().d), 4) == [0x76, 0x54, 0x32, 0x10]
  {
    hide ToBits, Val, Pow2, ToLittle;
    FourBytes(0x67452301, 0x01, 0x23, 0x45, 0x67);
    FourBytes(0xefcdab89, 0x89, 0xab, 0xcd, 0xef);
    FourBytes(0x98badcfe, 0xfe, 0xdc, 0xba, 0x98);
    FourBytes(0x10325476, 0x76, 0x54, 0x32, 0x10);
  }

  lemma FourBytes(v: nat, a: byte, b: byte, c: byte, d: byte)
    requires v == a + 256 * (b + 256 * (c + 256 * d))
    ensures Store(Little, Val(W32(v)), 4) == [a, b, c, d]
  {
    hide ToBits, Val, Pow2, ToLittle;
    TwoTo32();
    ValOfToBits(32, v);
    Unfolded(v, a, b, c, d);
  }

  lemma TwoTo32()
    ensures Pow2(32) == 0x1_0000_0000
  {
    assert Pow2(8) == 256;
    assert Pow2(16) == 256 * Pow2(8) == 0x1_0000;
    assert Pow2(24) == 256 * Pow2(16) == 0x100_0000;
    assert Pow2(32) == 256 * Pow2(24);
  }

  lemma Unfolded(v: nat, a: byte, b: byte, c: byte, d: byte)
    requires v == a + 256 * (b + 256 * (c + 256 * d))
    ensures ToLittle(v, 4) == [a, b, c, d]
  {
    var v1, v2 := b + 256 * (c + 256 * d), c + 256 * d;
    assert v % 256 == a && v / 256 == v1;
    assert v1 % 256 == b && v1 / 256 == v2;
    assert v2 % 256 == c && v2 / 256 == d;
    assert ToLittle(d, 1) == [d];
    assert ToLittle(v2, 2) == [c] + ToLittle(d, 1);
    assert ToLittle(v1, 3) == [b] + ToLittle(v2, 2);
    assert ToLittle(v, 4) == [a] + ToLittle(v1, 3);
  }

  const T: seq<seq<nat>> := [
    [0xd76aa478, 0xe8c7b756, 0x242070db, 0xc1bdceee, 0xf57c0faf, 0x4787c62a, 0xa8304613, 0xfd469501],
    [0x698098d8, 0x8b44f7af, 0xffff5bb1, 0x895cd7be, 0x6b901122, 0xfd987193, 0xa679438e, 0x49b40821],
    [0xf61e2562, 0xc040b340, 0x265e5a51, 0xe9b6c7aa, 0xd62f105d, 0x02441453, 0xd8a1e681, 0xe7d3fbc8],
    [0x21e1cde6, 0xc33707d6, 0xf4d50d87, 0x455a14ed, 0xa9e3e905, 0xfcefa3f8, 0x676f02d9, 0x8d2a4c8a],
    [0xfffa3942, 0x8771f681, 0x6d9d6122, 0xfde5380c, 0xa4beea44, 0x4bdecfa9, 0xf6bb4b60, 0xbebfbc70],
    [0x289b7ec6, 0xeaa127fa, 0xd4ef3085, 0x04881d05, 0xd9d4d039, 0xe6db99e5, 0x1fa27cf8, 0xc4ac5665],
    [0xf4292244, 0x432aff97, 0xab9423a7, 0xfc93a039, 0x655b59c3, 0x8f0ccc92, 0xffeff47d, 0x85845dd1],
    [0x6fa87e4f, 0xfe2ce6e0, 0xa3014314, 0x4e0811a1, 0xf7537e82, 0xbd3af235, 0x2ad7d2bb, 0xeb86d391]]

  /** The shift amounts of the four rounds. */
  const SHIFTS: seq<seq<nat>> := [[7, 12, 17, 22], [5, 9, 14, 20], [4, 11, 16, 23], [6, 10, 15, 21]]

  /** The function, word and constants of operation i, from 0 to 63. */
  function Mix(i: nat, x: Word, y: Word, z: Word): Word {
    match i / 16
    case 0 => F(x, y, z)
    case 1 => G(x, y, z)
    case 2 => H(x, y, z)
    case _ => I(x, y, z)
  }

  function WordIndex(i: nat): (k: nat)
    ensures k < 16
  {
    match i / 16
    case 0 => i % 16
    case 1 => (5 * i + 1) % 16
    case 2 => (3 * i + 5) % 16
    case _ => 7 * i % 16
  }

  function Constant(i: nat): Word
    requires i < 64
  {
    W32(T[i / 8][i % 8])
  }

  function ShiftOf(i: nat): (s: nat)
    requires i < 64
    ensures 0 < s < 32
  {
    SHIFTS[i / 16][i % 4]
  }

  /** `[abcd k s i]`: a = b + ((a + f(b,c,d) + X[k] + T[i]) <<< s), after which
      the four registers have moved on by one place. */
  function Step(x: seq<Word>, i: nat, s: Md5State): Md5State
    requires |x| == 16 && i < 64
  {
    var sum := Plus(Plus(Plus(s.a, Mix(i, s.b, s.c, s.d)), x[WordIndex(i)]), Constant(i));
    var n := Plus(s.b, Rotl(sum, ShiftOf(i)));
    Md5State(s.d, n, s.b, s.c)
  }

  function Steps(x: seq<Word>, n: nat, s: Md5State): Md5State
    requires |x| == 16 && n <= 64
  {
    if n == 0 then s else Step(x, n - 1, Steps(x, n - 1, s))
  }

  /** The sixteen words of a block, low-order byte first. */
  function Words(block: seq<byte>): (x: seq<Word>)
    requires |block| == 64
    ensures |x| == 16
  {
    seq(16, k requires 0 <= k < 16 => WordAt(block, k))
  }

  function WordAt(block: seq<byte>, k: nat): Word
    requires |block| == 64 && k < 16
  {
    W32(Load(Little, block[4 * k..4 * k + 4]))
  }

  function Transform(s: Md5State, block: seq<byte>): Md5State
    requires |block| == 64
  {
    var r := Steps(Words(block), 64, s);
    Md5State(Plus(r.a, s.a), Plus(r.b, s.b), Plus(r.c, s.c), Plus(r.d, s.d))
  }

  // ---------------------------------------------------- crypt/md5-block.c

  function FF(b: Word, c: Word, d: Word): Word { Xor(d, And(b, Xor(c, d))) }
  function FG(b: Word, c: Word, d: Word): Word { FF(d, b, c) }
  function FH(b: Word, c: Word, d: Word): Word { Xor(Xor(b, c), d) }
  function FI(b: Word, c: Word, d: Word): Word { Xor(c, Or(b, Not(d))) }

  /** The macro that operation i uses. */
  function Macro(i: nat, b: Word, c: Word, d: Word): Word {
    match i / 16
    case 0 => FF(b, c, d)
    case 1 => FG(b, c, d)
    case 2 => FH(b, c, d)
    case _ => FI(b, c, d)
  }

  /** The optimized macros are the functions of the standard. */
  lemma MacroIsMix(i: nat, b: Word, c: Word, d: Word)
    ensures Macro(i, b, c, d) == Mix(i, b, c, d)
  {
    assert FF(b, c, d) == F(b, c, d);
    assert FG(b, c, d) == G(b, c, d);
  }

  /** `OP`: `a += f (b, c, d) + x[k] + t; CYCLIC (a, s); a += b`.  It is
      operation i of the standard if it is given that operation's arguments. */
  method Op(x: seq<Word>, ghost i: nat, ghost s0: Md5State, f: Word,
            a: Word, b: Word, ghost c: Word, ghost d: Word, k: nat, s: nat, t: nat) returns (a': Word)
    requires |x| == 16 && i < 64 && Steps(x, i, s0) == Md5State(a, b, c, d)
    requires f == Macro(i, b, c, d) && k == WordIndex(i) && s == ShiftOf(i) && W32(t) == Constant(i)
    ensures Steps(x, i + 1, s0) == Md5State(d, a', b, c)
  {
    hide Mix, Macro, WordIndex, ShiftOf, Constant, Rotl, Plus, W32;
    MacroIsMix(i, b, c, d);
    OpOrder(a, b, f, x[k], W32(t), s);
    a' := Plus(Rotl(Plus(a, Plus(Plus(f, x[k]), W32(t))), s), b);
  }

  /** The order in which the standard and the code add. */
  lemma OpOrder(a: Word, b: Word, f: Word, x: Word, t: Word, s: nat)
    requires 0 < s < 32
    ensures Plus(Rotl(Plus(a, Plus(Plus(f, x), t)), s), b) == Plus(b, Rotl(Plus(Plus(Plus(a, f), x), t), s))
  {
    hide Rotl, Plus;
    PlusAssociates(a, Plus(f, x), t);
    PlusAssociates(a, f, x);
    PlusCommutes(Rotl(Plus(Plus(Plus(a, f), x), t), s), b);
  }

  /** Operations 0 to 7. */
  method Round1First(x: seq<Word>, A0: Word, B0: Word, C0: Word, D0: Word, ghost s0: Md5State) returns (A: Word, B: Word, C: Word, D: Word)
    requires |x| == 16 && Steps(x, 0, s0) == Md5State(A0, B0, C0, D0)
    ensures Steps(x, 8, s0) == Md5State(A, B, C, D)
  {
    hide Steps, FF, W32;
    A, B, C, D := A0, B0, C0, D0;
    A := Op(x, 0, s0, FF(B, C, D), A, B, C, D, 0, 7, 0xd76aa478);
    D := Op(x, 1, s0, FF(A, B, C), D, A, B, C, 1, 12, 0xe8c7b756);
    C := Op(x, 2, s0, FF(D, A, B), C, D, A, B, 2, 17, 0x242070db);
    B := Op(x, 3, s0, FF(C, D, A), B, C, D, A, 3, 22, 0xc1bdceee);
    A := Op(x, 4, s0, FF(B, C, D), A, B, C, D, 4, 7, 0xf57c0faf);
    D := Op(x, 5, s0, FF(A, B, C), D, A, B, C, 5, 12, 0x4787c62a);
    C := Op(x, 6, s0, FF(D, A, B), C, D, A, B, 6, 17, 0xa8304613);
    B := Op(x, 7, s0, FF(C, D, A), B, C, D, A, 7, 22, 0xfd469501);
  }

  /** Operations 8 to 15. */
  method Round1Second(x: seq<Word>, A0: Word, B0: Word, C0: Word, D0: Word, ghost s0: Md5State) returns (A: Word, B: Word, C: Word, D: Word)
    requires |x| == 16 && Steps(x, 8, s0) == Md5State(A0, B0, C0, D0)
    ensures Steps(x, 16, s0) == Md5State(A, B, C, D)
  {
    hide Steps, FF, W32;
    A, B, C, D := A0, B0, C0, D0;
    A := Op(x, 8, s0, FF(B, C, D), A, B, C, D, 8, 7, 0x698098d8);
    D := Op(x, 9, s0, FF(A, B, C), D, A, B, C, 9, 12, 0x8b44f7af);
    C := Op(x, 10, s0, FF(D, A, B), C, D, A, B, 10, 17, 0xffff5bb1);
    B := Op(x, 11, s0, FF(C, D, A), B, C, D, A, 11, 22, 0x895cd7be);
    A := Op(x, 12, s0, FF(B, C, D), A, B, C, D, 12, 7, 0x6b901122);
    D := Op(x, 13, s0, FF(A, B, C), D, A, B, C, 13, 12, 0xfd987193);
    C := Op(x, 14, s0, FF(D, A, B), C, D, A, B, 14, 17, 0xa679438e);
    B := Op(x, 15, s0, FF(C, D, A), B, C, D, A, 15, 22, 0x49b40821);
  }

  /** Operations 16 to 23. */
  method Round2First(x: seq<Word>, A0: Word, B0: Word, C0: Word, D0: Word, ghost s0: Md5State) returns (A: Word, B: Word, C: Word, D: Word)
    requires |x| == 16 && Steps(x, 16, s0) == Md5State(A0, B0, C0, D0)
    ensures Steps(x, 24, s0) == Md5State(A, B, C, D)
  {
    hide Steps, FG, W32;
    A, B, C, D := A0, B0, C0, D0;
    A := Op(x, 16, s0, FG(B, C, D), A, B, C, D, 1, 5, 0xf61e2562);
    D := Op(x, 17, s0, FG(A, B, C), D, A, B, C, 6, 9, 0xc040b340);
    C := Op(x, 18, s0, FG(D, A, B), C, D, A, B, 11, 14, 0x265e5a51);
    B := Op(x, 19, s0, FG(C, D, A), B, C, D, A, 0, 20, 0xe9b6c7aa);
    A := Op(x, 20, s0, FG(B, C, D), A, B, C, D, 5, 5, 0xd62f105d);
    D := Op(x, 21, s0, FG(A, B, C), D, A, B, C, 10, 9, 0x02441453);
    C := Op(x, 22, s0, FG(D, A, B), C, D, A, B, 15, 14, 0xd8a1e681);
    B := Op(x, 23, s0, FG(C, D, A), B, C, D, A, 4, 20, 0xe7d3fbc8);
  }

  /** Operations 24 to 31. */
  method Round2Second(x: seq<Word>, A0: Word, B0: Word, C0: Word, D0: Word, ghost s0: Md5State) returns (A: Word, B: Word, C: Word, D: Word)
    requires |x| == 16 && Steps(x, 24, s0) == Md5State(A0, B0, C0, D0)
    ensures Steps(x, 32, s0) == Md5State(A, B, C, D)
  {
    hide Steps, FG, W32;
    A, B, C, D := A0, B0, C0, D0;
    A := Op(x, 24, s0, FG(B, C, D), A, B, C, D, 9, 5, 0x21e1cde6);
    D := Op(x, 25, s0, FG(A, B, C), D, A, B, C, 14, 9, 0xc33707d6);
    C := Op(x, 26, s0, FG(D, A, B), C, D, A, B, 3, 14, 0xf4d50d87);
    B := Op(x, 27, s0, FG(C, D, A), B, C, D, A, 8, 20, 0x455a14ed);
    A := Op(x, 28, s0, FG(B, C, D), A, B, C, D, 13, 5, 0xa9e3e905);
    D := Op(x, 29, s0, FG(A, B, C), D, A, B, C, 2, 9, 0xfcefa3f8);
    C := Op(x, 30, s0, FG(D, A, B), C, D, A, B, 7, 14, 0x676f02d9);
    B := Op(x, 31, s0, FG(C, D, A), B, C, D, A, 12, 20, 0x8d2a4c8a);
  }

  /** Operations 32 to 39. */
  method Round3First(x: seq<Word>, A0: Word, B0: Word, C0: Word, D0: Word, ghost s0: Md5State) returns (A: Word, B: Word, C: Word, D: Word)
    requires |x| == 16 && Steps(x, 32, s0) == Md5State(A0, B0, C0, D0)
    ensures Steps(x, 40, s0) == Md5State(A, B, C, D)
  {
    hide Steps, FH, W32;
    A, B, C, D := A0, B0, C0, D0;
    A := Op(x, 32, s0, FH(B, C, D), A, B, C, D, 5, 4, 0xfffa3942);
    D := Op(x, 33, s0, FH(A, B, C), D, A, B, C, 8, 11, 0x8771f681);
    C := Op(x, 34, s0, FH(D, A, B), C, D, A, B, 11, 16, 0x6d9d6122);
    B := Op(x, 35, s0, FH(C, D, A), B, C, D, A, 14, 23, 0xfde5380c);
    A := Op(x, 36, s0, FH(B, C, D), A, B, C, D, 1, 4, 0xa4beea44);
    D := Op(x, 37, s0, FH(A, B, C), D, A, B, C, 4, 11, 0x4bdecfa9);
    C := Op(x, 38, s0, FH(D, A, B), C, D, A, B, 7, 16, 0xf6bb4b60);
    B := Op(x, 39, s0, FH(C, D, A), B, C, D, A, 10, 23, 0xbebfbc70);
  }

  /** Operations 40 to 47. */
  method Round3Second(x: seq<Word>, A0: Word, B0: Word, C0: Word, D0: Word, ghost s0: Md5State) returns (A: Word, B: Word, C: Word, D: Word)
    requires |x| == 16 && Steps(x, 40, s0) == Md5State(A0, B0, C0, D0)
    ensures Steps(x, 48, s0) == Md5State(A, B, C, D)
  {
    hide Steps, FH, W32;
    A, B, C, D := A0, B0, C0, D0;
    A := Op(x, 40, s0, FH(B, C, D), A, B, C, D, 13, 4, 0x289b7ec6);
    D := Op(x, 41, s0, FH(A, B, C), D, A, B, C, 0, 11, 0xeaa127fa);
    C := Op(x, 42, s0, FH(D, A, B), C, D, A, B, 3, 16, 0xd4ef3085);
    B := Op(x, 43, s0, FH(C, D, A), B, C, D, A, 6, 23, 0x04881d05);
    A := Op(x, 44, s0, FH(B, C, D), A, B, C, D, 9, 4, 0xd9d4d039);
    D := Op(x, 45, s0, FH(A, B, C), D, A, B, C, 12, 11, 0xe6db99e5);
    C := Op(x, 46, s0, FH(D, A, B), C, D, A, B, 15, 16, 0x1fa27cf8);
    B := Op(x, 47, s0, FH(C, D, A), B, C, D, A, 2, 23, 0xc4ac5665);
  }

  /** Operations 48 to 55. */
  method Round4First(x: seq<Word>, A0: Word, B0: Word, C0: Word, D0: Word, ghost s0: Md5State) returns (A: Word, B: Word, C: Word, D: Word)
    requires |x| == 16 && Steps(x, 48, s0) == Md5State(A0, B0, C0, D0)
    ensures Steps(x, 56, s0) == Md5State(A, B, C, D)
  {
    hide Steps, FI, W32;
    A, B, C, D := A0, B0, C0, D0;
    A := Op(x, 48, s0, FI(B, C, D), A, B, C, D, 0, 6, 0xf4292244);
    D := Op(x, 49, s0, FI(A, B, C), D, A, B, C, 7, 10, 0x432aff97);
    C := Op(x, 50, s0, FI(D, A, B), C, D, A, B, 14, 15, 0xab9423a7);
    B := Op(x, 51, s0, FI(C, D, A), B, C, D, A, 5, 21, 0xfc93a039);
    A := Op(x, 52, s0, FI(B, C, D), A, B, C, D, 12, 6, 0x655b59c3);
    D := Op(x, 53, s0, FI(A, B, C), D, A, B, C, 3, 10, 0x8f0ccc92);
    C := Op(x, 54, s0, FI(D, A, B), C, D, A, B, 10, 15, 0xffeff47d);
    B := Op(x, 55, s0, FI(C, D, A), B, C, D, A, 1, 21, 0x85845dd1);
  }

  /** Operations 56 to 63. */
  method Round4Second(x: seq<Word>, A0: Word, B0: Word, C0: Word, D0: Word, ghost s0: Md5State) returns (A: Word, B: Word, C: Word, D: Word)
    requires |x| == 16 && Steps(x, 56, s0) == Md5State(A0, B0, C0, D0)
    ensures Steps(x, 64, s0) == Md5State(A, B, C, D)
  {
    hide Steps, FI, W32;
    A, B, C, D := A0, B0, C0, D0;
    A := Op(x, 56, s0, FI(B, C, D), A, B, C, D, 8, 6, 0x6fa87e4f);
    D := Op(x, 57, s0, FI(A, B, C), D, A, B, C, 15, 10, 0xfe2ce6e0);
    C := Op(x, 58, s0, FI(D, A, B), C, D, A, B, 6, 15, 0xa3014314);
    B := Op(x, 59, s0, FI(C, D, A), B, C, D, A, 13, 21, 0x4e0811a1);
    A := Op(x, 60, s0, FI(B, C, D), A, B, C, D, 4, 6, 0xf7537e82);
    D := Op(x, 61, s0, FI(A, B, C), D, A, B, C, 11, 10, 0xbd3af235);
    C := Op(x, 62, s0, FI(D, A, B), C, D, A, B, 2, 15, 0x2ad7d2bb);
    B := Op(x, 63, s0, FI(C, D, A), B, C, D, A, 9, 21, 0xeb86d391);
  }

  /** One pass of the loop in `__md5_process_block`, on a host of order o: the
      words are brought to little-endian order before use. */
  method ProcessBlock(o: Order, block: seq<byte>, s: Md5State) returns (s': Md5State)
    requires |block| == 64
    ensures s' == Transform(s, block)
  {
    hide Steps;
    var words: seq<Word> := [];
    for k := 0 to 16
      invariant |words| == k
      invariant forall j :: 0 <= j < k ==> words[j] == WordAt(block, j)
    {
      var w := Load(o, block[4 * k..4 * k + 4]);
      LittleWord(o, block[4 * k..4 * k + 4]);
      words := words + [W32(if o.Big? then Swap(w, 4) else w)];
    }
    assert words == Words(block);
    NoSteps(words, s);
    var A, B, C, D := Round1First(words, s.a, s.b, s.c, s.d, s);
    A, B, C, D := Round1Second(words, A, B, C, D, s);
    A, B, C, D := Round2First(words, A, B, C, D, s);
    A, B, C, D := Round2Second(words, A, B, C, D, s);
    A, B, C, D := Round3First(words, A, B, C, D, s);
    A, B, C, D := Round3Second(words, A, B, C, D, s);
    A, B, C, D := Round4First(words, A, B, C, D, s);
    A, B, C, D := Round4Second(words, A, B, C, D, s);
    s' := Md5State(Plus(A, s.a), Plus(B, s.b), Plus(C, s.c), Plus(D, s.d));
  }

  lemma NoSteps(x: seq<Word>, s: Md5State)
    requires |x| == 16
    ensures Steps(x, 0, s) == s
  {
  }

  lemma LittleWord(o: Order, b: seq<byte>)
    requires |b| == 4
    ensures (if o.Big? then Swap(Load(o, b), 4) else Load(o, b)) == Load(Little, b)
  {
    SwapLoad(o, b);
  }
}
