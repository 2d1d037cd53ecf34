/** The MD5 message digest as sections 3.1 to 3.5 of RFC 1321 define it. */
module Rfc1321 {

  const TWO_32: nat := 0x1_0000_0000

  type Byte = bv8
  type Word = bv32

  datatype Registers = Registers(a: Word, b: Word, c: Word, d: Word)

  const INITIAL := Registers(0x67452301, 0xefcdab89, 0x98badcfe, 0x10325476)

  /** T[i + 1], the integer part of 2^32 * |sin(i + 1)|. */
  function Sine(i: nat): Word
    requires i < 64
  {
    match i
    case 0 => 0xd76aa478 case 1 => 0xe8c7b756 case 2 => 0x242070db case 3 => 0xc1bdceee
    case 4 => 0xf57c0faf case 5 => 0x4787c62a case 6 => 0xa8304613 case 7 => 0xfd469501
    case 8 => 0x698098d8 case 9 => 0x8b44f7af case 10 => 0xffff5bb1 case 11 => 0x895cd7be
    case 12 => 0x6b901122 case 13 => 0xfd987193 case 14 => 0xa679438e case 15 => 0x49b40821
    case 16 => 0xf61e2562 case 17 => 0xc040b340 case 18 => 0x265e5a51 case 19 => 0xe9b6c7aa
    case 20 => 0xd62f105d case 21 => 0x02441453 case 22 => 0xd8a1e681 case 23 => 0xe7d3fbc8
    case 24 => 0x21e1cde6 case 25 => 0xc33707d6 case 26 => 0xf4d50d87 case 27 => 0x455a14ed
    case 28 => 0xa9e3e905 case 29 => 0xfcefa3f8 case 30 => 0x676f02d9 case 31 => 0x8d2a4c8a
    case 32 => 0xfffa3942 case 33 => 0x8771f681 case 34 => 0x6d9d6122 case 35 => 0xfde5380c
    case 36 => 0xa4beea44 case 37 => 0x4bdecfa9 case 38 => 0xf6bb4b60 case 39 => 0xbebfbc70
    case 40 => 0x289b7ec6 case 41 => 0xeaa127fa case 42 => 0xd4ef3085 case 43 => 0x04881d05
    case 44 => 0xd9d4d039 case 45 => 0xe6db99e5 case 46 => 0x1fa27cf8 case 47 => 0xc4ac5665
    case 48 => 0xf4292244 case 49 => 0x432aff97 case 50 => 0xab9423a7 case 51 => 0xfc93a039
    case 52 => 0x655b59c3 case 53 => 0x8f0ccc92 case 54 => 0xffeff47d case 55 => 0x85845dd1
    case 56 => 0x6fa87e4f case 57 => 0xfe2ce6e0 case 58 => 0xa3014314 case 59 => 0x4e0811a1
    case 60 => 0xf7537e82 case 61 => 0xbd3af235 case 62 => 0x2ad7d2bb case _ => 0xeb86d391
  }

  function F(x: Word, y: Word, z: Word): Word {
    (x & y) | (!x & z)
  }

  function G(x: Word, y: Word, z: Word): Word {
    (x & z) | (y & !z)
  }

  function H(x: Word, y: Word, z: Word): Word {
    x ^ y ^ z
  }

  function I(x: Word, y: Word, z: Word): Word {
    y ^ (x | !z)
  }

  function RotateLeft(x: Word, n: bv6): Word
    requires n <= 32
  {
    (x << n) | (x >> (32 - n))
  }

  /** Addition of words is modulo 2^32. */
  function Sum(x: Word, y: Word): Word {
    x + y
  }

  function Mix(i: nat, x: Word, y: Word, z: Word): Word {
    if i < 16 then F(x, y, z) else if i < 32 then G(x, y, z) else if i < 48 then H(x, y, z) else I(x, y, z)
  }

  /** The word of the block that operation `i` uses. */
  function WordIndex(i: nat): nat {
    if i < 16 then i else if i < 32 then (1 + 5 * i) % 16 else if i < 48 then (5 + 3 * i) % 16 else 7 * i % 16
  }

  /** How far operation `i` rotates. */
  function Shift(i: nat): (s: bv6)
    ensures s <= 32
  {
    var k := i % 4;
    if i < 16 then if k == 0 then 7 else if k == 1 then 12 else if k == 2 then 17 else 22
    else if i < 32 then if k == 0 then 5 else if k == 1 then 9 else if k == 2 then 14 else 20
    else if i < 48 then if k == 0 then 4 else if k == 1 then 11 else if k == 2 then 16 else 23
    else if k == 0 then 6 else if k == 1 then 10 else if k == 2 then 15 else 21
  }

  /** b + ((a + mix + x + ac) <<< s) */
  function Turn(a: Word, b: Word, mix: Word, x: Word, s: bv6, ac: Word): Word
    requires s <= 32
  {
    Sum(b, RotateLeft(Sum(Sum(Sum(a, mix), x), ac), s))
  }

  /** Operation `i` of section 3.4, after which the registers take each other's places. */
  function Operate(i: nat, r: Registers, x: seq<Word>): Registers
    requires i < 64 && |x| == 16
  {
    Registers(r.d, Turn(r.a, r.b, Mix(i, r.b, r.c, r.d), x[WordIndex(i)], Shift(i), Sine(i)), r.b, r.c)
  }

  function Rounds(n: nat, r: Registers, x: seq<Word>): Registers
    requires n <= 64 && |x| == 16
  {
    if n == 0 then r else Operate(n - 1, Rounds(n - 1, r, x), x)
  }

  /** Word `i` of some bytes, low-order byte first. */
  function WordAt(b: seq<Byte>, i: nat): Word
    requires 4 * i + 4 <= |b|
  {
    (b[4 * i] as Word) | ((b[4 * i + 1] as Word) << 8) | ((b[4 * i + 2] as Word) << 16) | ((b[4 * i + 3] as Word) << 24)
  }

  function Words(b: seq<Byte>): seq<Word>
    requires |b| == 64
  {
    seq(16, i requires 0 <= i < 16 => WordAt(b, i))
  }

  function WordBytes(w: Word): seq<Byte> {
    [(w & 0xff) as Byte, ((w >> 8) & 0xff) as Byte, ((w >> 16) & 0xff) as Byte, ((w >> 24) & 0xff) as Byte]
  }

  function Plus(h: Registers, r: Registers): Registers {
    Registers(Sum(h.a, r.a), Sum(h.b, r.b), Sum(h.c, r.c), Sum(h.d, r.d))
  }

  function Compress(h: Registers, block: seq<Byte>): Registers
    requires |block| == 64
  {
    var x := Words(block);
    Plus(h, Rounds(4 * |x|, h, x))  // every word is used once in each of the four rounds
  }

  function Absorb(bytes: seq<Byte>): Registers
    requires |bytes| % 64 == 0
  {
    if |bytes| == 0 then INITIAL
    else Compress(Absorb(bytes[..|bytes| - 64]), bytes[|bytes| - 64..])
  }

  function Zeros(n: nat): seq<Byte> {
    seq(n, _ => 0)
  }

  lemma PaddedLength(n: nat)
    ensures (n + 1 + (55 - n) % 64 + 8) % 64 == 0
  {
  }

  /** Section 3.2: the bit length, low-order word first. */
  function LengthBytes(bits: nat): (r: seq<Byte>)
    ensures |r| == 8
  {
    WordBytes((bits % TWO_32) as Word) + WordBytes((bits / TWO_32 % TWO_32) as Word)
  }

  /** Sections 3.1 and 3.2: a one bit, zeros up to 56 mod 64, and the bit length mod 2^64. */
  function Padded(message: seq<Byte>): (p: seq<Byte>)
    ensures |p| % 64 == 0
  {
    PaddedLength(|message|);
    message + ([0x80] + Zeros((55 - |message|) % 64)) + LengthBytes(8 * |message|)
  }

  function Output(r: Registers): seq<Byte> {
    WordBytes(r.a) + WordBytes(r.b) + WordBytes(r.c) + WordBytes(r.d)
  }

  function Digest(message: seq<Byte>): seq<Byte> {
    Output(Absorb(Padded(message)))
  }
}
