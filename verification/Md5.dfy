/** The streaming MD5 class: bytes arrive in any number of pieces, and a 64-byte buffer
    and a two-word bit counter carry the digest from one piece to the next. */
module Md5 {
  import opened Collections
  import opened Rfc1321

  // ---- The basic functions as the class computes them ------------------------------------------

  function MixF(x: Word, y: Word, z: Word): (r: Word)
    ensures r == F(x, y, z)
  {
    (x & y) | (!x & z)
  }

  function MixG(x: Word, y: Word, z: Word): (r: Word)
    ensures r == G(x, y, z)
  {
    (x & z) | (y & !z)
  }

  function MixH(x: Word, y: Word, z: Word): (r: Word)
    ensures r == H(x, y, z)
  {
    x ^ y ^ z
  }

  function MixI(x: Word, y: Word, z: Word): (r: Word)
    ensures r == I(x, y, z)
  {
    y ^ (x | !z)
  }

  function Added(x: Word, y: Word): (r: Word)
    ensures r == Sum(x, y) == Sum(y, x)
  {
    x + y
  }

  function RotatedLeft(x: Word, n: bv6): (r: Word)
    requires n <= 32
    ensures r == RotateLeft(x, n)
  {
    (x << n) | (x >> (32 - n))
  }

  // FF, GG, HH and II each perform operation `i` of the specification on the register they return.

  method FF(a: Word, b: Word, c: Word, d: Word, x: Word, s: bv6, ac: Word, ghost i: nat, ghost r: Registers, ghost xs: seq<Word>)
    returns (a': Word)
    requires 0 <= i < 16 && |xs| == 16 && Registers(a, b, c, d) == Rounds(i, r, xs)
    requires x == xs[WordIndex(i)] && s == Shift(i) && ac == Sine(i)
    ensures Registers(d, a', b, c) == Rounds(i + 1, r, xs)
  {
    hide RotatedLeft, RotateLeft, MixF, F, Added, Sum;
    a' := Added(RotatedLeft(Added(Added(Added(a, MixF(b, c, d)), x), ac), s), b);
  }

  method GG(a: Word, b: Word, c: Word, d: Word, x: Word, s: bv6, ac: Word, ghost i: nat, ghost r: Registers, ghost xs: seq<Word>)
    returns (a': Word)
    requires 16 <= i < 32 && |xs| == 16 && Registers(a, b, c, d) == Rounds(i, r, xs)
    requires x == xs[WordIndex(i)] && s == Shift(i) && ac == Sine(i)
    ensures Registers(d, a', b, c) == Rounds(i + 1, r, xs)
  {
    hide RotatedLeft, RotateLeft, MixG, G, Added, Sum;
    a' := Added(RotatedLeft(Added(Added(Added(a, MixG(b, c, d)), x), ac), s), b);
  }

  method HH(a: Word, b: Word, c: Word, d: Word, x: Word, s: bv6, ac: Word, ghost i: nat, ghost r: Registers, ghost xs: seq<Word>)
    returns (a': Word)
    requires 32 <= i < 48 && |xs| == 16 && Registers(a, b, c, d) == Rounds(i, r, xs)
    requires x == xs[WordIndex(i)] && s == Shift(i) && ac == Sine(i)
    ensures Registers(d, a', b, c) == Rounds(i + 1, r, xs)
  {
    hide RotatedLeft, RotateLeft, MixH, H, Added, Sum;
    a' := Added(RotatedLeft(Added(Added(Added(a, MixH(b, c, d)), x), ac), s), b);
  }

  method II(a: Word, b: Word, c: Word, d: Word, x: Word, s: bv6, ac: Word, ghost i: nat, ghost r: Registers, ghost xs: seq<Word>)
    returns (a': Word)
    requires 48 <= i < 64 && |xs| == 16 && Registers(a, b, c, d) == Rounds(i, r, xs)
    requires x == xs[WordIndex(i)] && s == Shift(i) && ac == Sine(i)
    ensures Registers(d, a', b, c) == Rounds(i + 1, r, xs)
  {
    hide RotatedLeft, RotateLeft, MixI, I, Added, Sum;
    a' := Added(RotatedLeft(Added(Added(Added(a, MixI(b, c, d)), x), ac), s), b);
  }

  method Round1A(a0: Word, b0: Word, c0: Word, d0: Word, x: seq<Word>, ghost n: nat, ghost r: Registers)
    returns (a: Word, b: Word, c: Word, d: Word)
    requires n == 0 && |x| == 16 && Registers(a0, b0, c0, d0) == Rounds(n, r, x)
    ensures Registers(a, b, c, d) == Rounds(n + 4, r, x)
  {
    a, b, c, d := a0, b0, c0, d0;
    a := FF(a, b, c, d, x[0], 7, 0xd76aa478, n, r, x);
    d := FF(d, a, b, c, x[1], 12, 0xe8c7b756, n + 1, r, x);
    c := FF(c, d, a, b, x[2], 17, 0x242070db, n + 2, r, x);
    b := FF(b, c, d, a, x[3], 22, 0xc1bdceee, n + 3, r, x);
  }

  method Round1B(a0: Word, b0: Word, c0: Word, d0: Word, x: seq<Word>, ghost n: nat, ghost r: Registers)
    returns (a: Word, b: Word, c: Word, d: Word)
    requires n == 4 && |x| == 16 && Registers(a0, b0, c0, d0) == Rounds(n, r, x)
    ensures Registers(a, b, c, d) == Rounds(n + 4, r, x)
  {
    a, b, c, d := a0, b0, c0, d0;
    a := FF(a, b, c, d, x[4], 7, 0xf57c0faf, n, r, x);
    d := FF(d, a, b, c, x[5], 12, 0x4787c62a, n + 1, r, x);
    c := FF(c, d, a, b, x[6], 17, 0xa8304613, n + 2, r, x);
    b := FF(b, c, d, a, x[7], 22, 0xfd469501, n + 3, r, x);
  }

  method Round1C(a0: Word, b0: Word, c0: Word, d0: Word, x: seq<Word>, ghost n: nat, ghost r: Registers)
    returns (a: Word, b: Word, c: Word, d: Word)
    requires n == 8 && |x| == 16 && Registers(a0, b0, c0, d0) == Rounds(n, r, x)
    ensures Registers(a, b, c, d) == Rounds(n + 4, r, x)
  {
    a, b, c, d := a0, b0, c0, d0;
    a := FF(a, b, c, d, x[8], 7, 0x698098d8, n, r, x);
    d := FF(d, a, b, c, x[9], 12, 0x8b44f7af, n + 1, r, x);
    c := FF(c, d, a, b, x[10], 17, 0xffff5bb1, n + 2, r, x);
    b := FF(b, c, d, a, x[11], 22, 0x895cd7be, n + 3, r, x);
  }

  method Round1D(a0: Word, b0: Word, c0: Word, d0: Word, x: seq<Word>, ghost n: nat, ghost r: Registers)
    returns (a: Word, b: Word, c: Word, d: Word)
    requires n == 12 && |x| == 16 && Registers(a0, b0, c0, d0) == Rounds(n, r, x)
    ensures Registers(a, b, c, d) == Rounds(n + 4, r, x)
  {
    a, b, c, d := a0, b0, c0, d0;
    a := FF(a, b, c, d, x[12], 7, 0x6b901122, n, r, x);
    d := FF(d, a, b, c, x[13], 12, 0xfd987193, n + 1, r, x);
    c := FF(c, d, a, b, x[14], 17, 0xa679438e, n + 2, r, x);
    b := FF(b, c, d, a, x[15], 22, 0x49b40821, n + 3, r, x);
  }

  method Round2A(a0: Word, b0: Word, c0: Word, d0: Word, x: seq<Word>, ghost n: nat, ghost r: Registers)
    returns (a: Word, b: Word, c: Word, d: Word)
    requires n == 16 && |x| == 16 && Registers(a0, b0, c0, d0) == Rounds(n, r, x)
    ensures Registers(a, b, c, d) == Rounds(n + 4, r, x)
  {
    a, b, c, d := a0, b0, c0, d0;
    a := GG(a, b, c, d, x[1], 5, 0xf61e2562, n, r, x);
    d := GG(d, a, b, c, x[6], 9, 0xc040b340, n + 1, r, x);
    c := GG(c, d, a, b, x[11], 14, 0x265e5a51, n + 2, r, x);
    b := GG(b, c, d, a, x[0], 20, 0xe9b6c7aa, n + 3, r, x);
  }

  method Round2B(a0: Word, b0: Word, c0: Word, d0: Word, x: seq<Word>, ghost n: nat, ghost r: Registers)
    returns (a: Word, b: Word, c: Word, d: Word)
    requires n == 20 && |x| == 16 && Registers(a0, b0, c0, d0) == Rounds(n, r, x)
    ensures Registers(a, b, c, d) == Rounds(n + 4, r, x)
  {
    a, b, c, d := a0, b0, c0, d0;
    a := GG(a, b, c, d, x[5], 5, 0xd62f105d, n, r, x);
    d := GG(d, a, b, c, x[10], 9, 0x02441453, n + 1, r, x);
    c := GG(c, d, a, b, x[15], 14, 0xd8a1e681, n + 2, r, x);
    b := GG(b, c, d, a, x[4], 20, 0xe7d3fbc8, n + 3, r, x);
  }

  method Round2C(a0: Word, b0: Word, c0: Word, d0: Word, x: seq<Word>, ghost n: nat, ghost r: Registers)
    returns (a: Word, b: Word, c: Word, d: Word)
    requires n == 24 && |x| == 16 && Registers(a0, b0, c0, d0) == Rounds(n, r, x)
    ensures Registers(a, b, c, d) == Rounds(n + 4, r, x)
  {
    a, b, c, d := a0, b0, c0, d0;
    a := GG(a, b, c, d, x[9], 5, 0x21e1cde6, n, r, x);
    d := GG(d, a, b, c, x[14], 9, 0xc33707d6, n + 1, r, x);
    c := GG(c, d, a, b, x[3], 14, 0xf4d50d87, n + 2, r, x);
    b := GG(b, c, d, a, x[8], 20, 0x455a14ed, n + 3, r, x);
  }

  method Round2D(a0: Word, b0: Word, c0: Word, d0: Word, x: seq<Word>, ghost n: nat, ghost r: Registers)
    returns (a: Word, b: Word, c: Word, d: Word)
    requires n == 28 && |x| == 16 && Registers(a0, b0, c0, d0) == Rounds(n, r, x)
    ensures Registers(a, b, c, d) == Rounds(n + 4, r, x)
  {
    a, b, c, d := a0, b0, c0, d0;
    a := GG(a, b, c, d, x[13], 5, 0xa9e3e905, n, r, x);
    d := GG(d, a, b, c, x[2], 9, 0xfcefa3f8, n + 1, r, x);
    c := GG(c, d, a, b, x[7], 14, 0x676f02d9, n + 2, r, x);
    b := GG(b, c, d, a, x[12], 20, 0x8d2a4c8a, n + 3, r, x);
  }

  method Round3A(a0: Word, b0: Word, c0: Word, d0: Word, x: seq<Word>, ghost n: nat, ghost r: Registers)
    returns (a: Word, b: Word, c: Word, d: Word)
    requires n == 32 && |x| == 16 && Registers(a0, b0, c0, d0) == Rounds(n, r, x)
    ensures Registers(a, b, c, d) == Rounds(n + 4, r, x)
  {
    a, b, c, d := a0, b0, c0, d0;
    a := HH(a, b, c, d, x[5], 4, 0xfffa3942, n, r, x);
    d := HH(d, a, b, c, x[8], 11, 0x8771f681, n + 1, r, x);
    c := HH(c, d, a, b, x[11], 16, 0x6d9d6122, n + 2, r, x);
    b := HH(b, c, d, a, x[14], 23, 0xfde5380c, n + 3, r, x);
  }

  method Round3B(a0: Word, b0: Word, c0: Word, d0: Word, x: seq<Word>, ghost n: nat, ghost r: Registers)
    returns (a: Word, b: Word, c: Word, d: Word)
    requires n == 36 && |x| == 16 && Registers(a0, b0, c0, d0) == Rounds(n, r, x)
    ensures Registers(a, b, c, d) == Rounds(n + 4, r, x)
  {
    a, b, c, d := a0, b0, c0, d0;
    a := HH(a, b, c, d, x[1], 4, 0xa4beea44, n, r, x);
    d := HH(d, a, b, c, x[4], 11, 0x4bdecfa9, n + 1, r, x);
    c := HH(c, d, a, b, x[7], 16, 0xf6bb4b60, n + 2, r, x);
    b := HH(b, c, d, a, x[10], 23, 0xbebfbc70, n + 3, r, x);
  }

  method Round3C(a0: Word, b0: Word, c0: Word, d0: Word, x: seq<Word>, ghost n: nat, ghost r: Registers)
    returns (a: Word, b: Word, c: Word, d: Word)
    requires n == 40 && |x| == 16 && Registers(a0, b0, c0, d0) == Rounds(n, r, x)
    ensures Registers(a, b, c, d) == Rounds(n + 4, r, x)
  {
    a, b, c, d := a0, b0, c0, d0;
    a := HH(a, b, c, d, x[13], 4, 0x289b7ec6, n, r, x);
    d := HH(d, a, b, c, x[0], 11, 0xeaa127fa, n + 1, r, x);
    c := HH(c, d, a, b, x[3], 16, 0xd4ef3085, n + 2, r, x);
    b := HH(b, c, d, a, x[6], 23, 0x04881d05, n + 3, r, x);
  }

  method Round3D(a0: Word, b0: Word, c0: Word, d0: Word, x: seq<Word>, ghost n: nat, ghost r: Registers)
    returns (a: Word, b: Word, c: Word, d: Word)
    requires n == 44 && |x| == 16 && Registers(a0, b0, c0, d0) == Rounds(n, r, x)
    ensures Registers(a, b, c, d) == Rounds(n + 4, r, x)
  {
    a, b, c, d := a0, b0, c0, d0;
    a := HH(a, b, c, d, x[9], 4, 0xd9d4d039, n, r, x);
    d := HH(d, a, b, c, x[12], 11, 0xe6db99e5, n + 1, r, x);
    c := HH(c, d, a, b, x[15], 16, 0x1fa27cf8, n + 2, r, x);
    b := HH(b, c, d, a, x[2], 23, 0xc4ac5665, n + 3, r, x);
  }

  method Round4A(a0: Word, b0: Word, c0: Word, d0: Word, x: seq<Word>, ghost n: nat, ghost r: Registers)
    returns (a: Word, b: Word, c: Word, d: Word)
    requires n == 48 && |x| == 16 && Registers(a0, b0, c0, d0) == Rounds(n, r, x)
    ensures Registers(a, b, c, d) == Rounds(n + 4, r, x)
  {
    a, b, c, d := a0, b0, c0, d0;
    a := II(a, b, c, d, x[0], 6, 0xf4292244, n, r, x);
    d := II(d, a, b, c, x[7], 10, 0x432aff97, n + 1, r, x);
    c := II(c, d, a, b, x[14], 15, 0xab9423a7, n + 2, r, x);
    b := II(b, c, d, a, x[5], 21, 0xfc93a039, n + 3, r, x);
  }

  method Round4B(a0: Word, b0: Word, c0: Word, d0: Word, x: seq<Word>, ghost n: nat, ghost r: Registers)
    returns (a: Word, b: Word, c: Word, d: Word)
    requires n == 52 && |x| == 16 && Registers(a0, b0, c0, d0) == Rounds(n, r, x)
    ensures Registers(a, b, c, d) == Rounds(n + 4, r, x)
  {
    a, b, c, d := a0, b0, c0, d0;
    a := II(a, b, c, d, x[12], 6, 0x655b59c3, n, r, x);
    d := II(d, a, b, c, x[3], 10, 0x8f0ccc92, n + 1, r, x);
    c := II(c, d, a, b, x[10], 15, 0xffeff47d, n + 2, r, x);
    b := II(b, c, d, a, x[1], 21, 0x85845dd1, n + 3, r, x);
  }

  method Round4C(a0: Word, b0: Word, c0: Word, d0: Word, x: seq<Word>, ghost n: nat, ghost r: Registers)
    returns (a: Word, b: Word, c: Word, d: Word)
    requires n == 56 && |x| == 16 && Registers(a0, b0, c0, d0) == Rounds(n, r, x)
    ensures Registers(a, b, c, d) == Rounds(n + 4, r, x)
  {
    a, b, c, d := a0, b0, c0, d0;
    a := II(a, b, c, d, x[8], 6, 0x6fa87e4f, n, r, x);
    d := II(d, a, b, c, x[15], 10, 0xfe2ce6e0, n + 1, r, x);
    c := II(c, d, a, b, x[6], 15, 0xa3014314, n + 2, r, x);
    b := II(b, c, d, a, x[13], 21, 0x4e0811a1, n + 3, r, x);
  }

  method Round4D(a0: Word, b0: Word, c0: Word, d0: Word, x: seq<Word>, ghost n: nat, ghost r: Registers)
    returns (a: Word, b: Word, c: Word, d: Word)
    requires n == 60 && |x| == 16 && Registers(a0, b0, c0, d0) == Rounds(n, r, x)
    ensures Registers(a, b, c, d) == Rounds(n + 4, r, x)
  {
    a, b, c, d := a0, b0, c0, d0;
    a := II(a, b, c, d, x[4], 6, 0xf7537e82, n, r, x);
    d := II(d, a, b, c, x[11], 10, 0xbd3af235, n + 1, r, x);
    c := II(c, d, a, b, x[2], 15, 0x2ad7d2bb, n + 2, r, x);
    b := II(b, c, d, a, x[9], 21, 0xeb86d391, n + 3, r, x);
  }

  method Round1(a0: Word, b0: Word, c0: Word, d0: Word, x: seq<Word>, ghost n: nat, ghost r: Registers)
    returns (a: Word, b: Word, c: Word, d: Word)
    requires n == 0 && |x| == 16 && Registers(a0, b0, c0, d0) == Rounds(n, r, x)
    ensures Registers(a, b, c, d) == Rounds(n + 16, r, x)
  {
    a, b, c, d := Round1A(a0, b0, c0, d0, x, n, r);
    a, b, c, d := Round1B(a, b, c, d, x, n + 4, r);
    a, b, c, d := Round1C(a, b, c, d, x, n + 8, r);
    a, b, c, d := Round1D(a, b, c, d, x, n + 12, r);
  }

  method Round2(a0: Word, b0: Word, c0: Word, d0: Word, x: seq<Word>, ghost n: nat, ghost r: Registers)
    returns (a: Word, b: Word, c: Word, d: Word)
    requires n == 16 && |x| == 16 && Registers(a0, b0, c0, d0) == Rounds(n, r, x)
    ensures Registers(a, b, c, d) == Rounds(n + 16, r, x)
  {
    a, b, c, d := Round2A(a0, b0, c0, d0, x, n, r);
    a, b, c, d := Round2B(a, b, c, d, x, n + 4, r);
    a, b, c, d := Round2C(a, b, c, d, x, n + 8, r);
    a, b, c, d := Round2D(a, b, c, d, x, n + 12, r);
  }

  method Round3(a0: Word, b0: Word, c0: Word, d0: Word, x: seq<Word>, ghost n: nat, ghost r: Registers)
    returns (a: Word, b: Word, c: Word, d: Word)
    requires n == 32 && |x| == 16 && Registers(a0, b0, c0, d0) == Rounds(n, r, x)
    ensures Registers(a, b, c, d) == Rounds(n + 16, r, x)
  {
    a, b, c, d := Round3A(a0, b0, c0, d0, x, n, r);
    a, b, c, d := Round3B(a, b, c, d, x, n + 4, r);
    a, b, c, d := Round3C(a, b, c, d, x, n + 8, r);
    a, b, c, d := Round3D(a, b, c, d, x, n + 12, r);
  }

  method Round4(a0: Word, b0: Word, c0: Word, d0: Word, x: seq<Word>, ghost n: nat, ghost r: Registers)
    returns (a: Word, b: Word, c: Word, d: Word)
    requires n == 48 && |x| == 16 && Registers(a0, b0, c0, d0) == Rounds(n, r, x)
    ensures Registers(a, b, c, d) == Rounds(n + 16, r, x)
  {
    a, b, c, d := Round4A(a0, b0, c0, d0, x, n, r);
    a, b, c, d := Round4B(a, b, c, d, x, n + 4, r);
    a, b, c, d := Round4C(a, b, c, d, x, n + 8, r);
    a, b, c, d := Round4D(a, b, c, d, x, n + 12, r);
  }

  method AllRounds(a0: Word, b0: Word, c0: Word, d0: Word, x: seq<Word>, ghost n: nat, ghost r: Registers)
    returns (a: Word, b: Word, c: Word, d: Word)
    requires n == 0 && |x| == 16 && Registers(a0, b0, c0, d0) == r
    ensures Registers(a, b, c, d) == Rounds(n + 64, r, x)
  {
    a, b, c, d := Round1(a0, b0, c0, d0, x, n, r);
    a, b, c, d := Round2(a, b, c, d, x, n + 16, r);
    a, b, c, d := Round3(a, b, c, d, x, n + 32, r);
    a, b, c, d := Round4(a, b, c, d, x, n + 48, r);
  }

  /** MD5::decode on one block. */
  method Decode(block: seq<Byte>) returns (x: seq<Word>)
    requires |block| == 64
    ensures x == Words(block)
  {
    x := [];
    var i, j := 0, 0;
    while j < 64
      invariant 0 <= i <= 16 && j == 4 * i && |x| == i
      invariant forall k :: 0 <= k < i ==> x[k] == WordAt(block, k)
    {
      x := x + [(block[j] as Word) | ((block[j + 1] as Word) << 8) | ((block[j + 2] as Word) << 16) | ((block[j + 3] as Word) << 24)];
      assert x[i] == WordAt(block, i);
      i, j := i + 1, j + 4;
    }
  }

  /** MD5::transform */
  method Transform(state: Registers, block: seq<Byte>) returns (state': Registers)
    requires |block| == 64
    ensures state' == Compress(state, block)
  {
    var x := Decode(block);
    var a, b, c, d := AllRounds(state.a, state.b, state.c, state.d, x, |x| - 16, state);
    hide Added, Sum;
    state' := Registers(Added(state.a, a), Added(state.b, b), Added(state.c, c), Added(state.d, d));
  }

  /** MD5::encode on some words. */
  method Encode(input: seq<Word>) returns (output: seq<Byte>)
    ensures |output| == 4 * |input|
    ensures forall k :: 0 <= k < |input| ==> output[4 * k..4 * k + 4] == WordBytes(input[k])
  {
    output := [];
    var i := 0;
    while i < |input|
      invariant 0 <= i <= |input| && |output| == 4 * i
      invariant forall k :: 0 <= k < i ==> output[4 * k..4 * k + 4] == WordBytes(input[k])
    {
      ghost var before := output;
      var w := input[i];
      output := output + [(w & 0xff) as Byte, ((w >> 8) & 0xff) as Byte, ((w >> 16) & 0xff) as Byte, ((w >> 24) & 0xff) as Byte];
      assert output == before + WordBytes(w);
      forall k | 0 <= k <= i
        ensures output[4 * k..4 * k + 4] == WordBytes(input[k])
      {
        if k < i {
          assert output[4 * k..4 * k + 4] == before[4 * k..4 * k + 4];
        }
      }
      i := i + 1;
    }
  }

  // ---- The bit counter ---------------------------------------------------------------------

  type Uint32 = n: int | 0 <= n < 0x1_0000_0000

  /** The two counter words hold the bit length of `n` bytes, mod 2^64. */
  ghost predicate Counts(lo: Uint32, hi: Uint32, n: nat) {
    lo == 8 * n % TWO_32 && hi == 8 * n / TWO_32 % TWO_32
  }

  /** Adding with a carry from the low word into the high word. */
  method AddLength(lo: Uint32, hi: Uint32, length: Uint32, ghost n: nat) returns (lo': Uint32, hi': Uint32)
    ensures Counts(lo, hi, n) ==> Counts(lo', hi', n + length)
  {
    var bits := length * 8 % TWO_32;
    lo' := (lo + bits) % TWO_32;
    hi' := hi;
    if lo' < bits {
      hi' := (hi' + 1) % TWO_32;
    }
    hi' := (hi' + length / 0x2000_0000) % TWO_32;
    if Counts(lo, hi, n) {
      CarryAdds(n, length);
      var carry := if lo' < bits then 1 else 0;
      AddMod(8 * n / TWO_32, carry);
      AddMod(8 * n / TWO_32 + carry, length / 0x2000_0000);
    }
  }

  lemma AddMod(x: int, y: int)
    ensures (x % TWO_32 + y) % TWO_32 == (x + y) % TWO_32
  {
  }

  lemma CarryAdds(n: nat, length: Uint32)
    ensures
      var (bits, lo) := (8 * length % TWO_32, 8 * n % TWO_32);
      && 8 * (n + length) % TWO_32 == (lo + bits) % TWO_32
      && 8 * (n + length) / TWO_32 ==
           8 * n / TWO_32 + length / 0x2000_0000 + (if (lo + bits) % TWO_32 < bits then 1 else 0)
  {
  }

  lemma IndexOf(lo: Uint32, hi: Uint32, n: nat)
    requires Counts(lo, hi, n)
    ensures lo / 8 % 64 == n % 64
  {
    var wraps := 8 * n / TWO_32;
    assert lo == 8 * (n - 0x2000_0000 * wraps);
    assert lo / 8 == n - 64 * (0x80_0000 * wraps);
    Multiple64(n, 0x80_0000 * wraps);
  }

  lemma Multiple64(n: int, k: int)
    ensures (n - 64 * k) % 64 == n % 64
  {
  }

  // ---- Where the update loop stops ----------------------------------------------------------

  /** The loop guard `i + blocksize <= length`, computed in 32 bits. */
  predicate Guard(i: Uint32, length: Uint32) {
    (i + 64) % TWO_32 <= length
  }

  /** The guard is computed without wrapping wherever the loop takes it. */
  predicate Fits(index: nat, length: Uint32)
    requires index < 64
  {
    var firstpart := 64 - index;
    length < firstpart || length - (length - firstpart) % 64 + 64 < TWO_32
  }

  /** The k-th block the loop would take runs past the input. */
  ghost predicate Overruns(index: nat, length: Uint32, k: nat)
    requires index < 64 && 64 - index <= length
  {
    var i := 64 - index + 64 * k;
    i <= length && Guard(i, length) && i + 64 > length
  }

  /** The guard lets the loop read past its input on some iteration exactly when the piece does not fit. */
  lemma OverrunsExactly(index: nat, length: Uint32)
    requires index < 64 && 64 - index <= length
    ensures Fits(index, length) <==> forall k: nat :: !Overruns(index, length, k)
  {
    var firstpart := 64 - index;
    var last := (length - firstpart) / 64;
    assert firstpart + 64 * last == length - (length - firstpart) % 64;
    if Fits(index, length) {
      forall k: nat | firstpart + 64 * k <= length
        ensures !Overruns(index, length, k)
      {
        assert k <= last;
      }
    } else {
      assert Overruns(index, length, last);
    }
  }

  /** The longest piece is too long for an empty buffer, and long enough to overrun. */
  lemma LongestOverruns()
    ensures !Fits(0, 0xffff_ffff) && Overruns(0, 0xffff_ffff, 0x3ff_fffe)
  {
  }

  lemma AbsorbBlock(bytes: seq<Byte>, block: seq<Byte>)
    requires |bytes| % 64 == 0 && |block| == 64
    ensures Absorb(bytes + block) == Compress(Absorb(bytes), block)
  {
    assert (bytes + block)[..|bytes|] == bytes && (bytes + block)[|bytes|..] == block;
  }

  lemma AbsorbMore(done: seq<Byte>, input: seq<Byte>, i: nat)
    requires i + 64 <= |input| && (|done| + i) % 64 == 0 && (|done| + i + 64) % 64 == 0
    ensures Absorb(done + input[..i + 64]) == Compress(Absorb(done + input[..i]), input[i..i + 64])
  {
    hide Compress;
    AbsorbBlock(done + input[..i], input[i..i + 64]);
    assert done + input[..i] + input[i..i + 64] == done + input[..i + 64];
  }

  /** How much of a message the blocks seen so far cover. */
  function Whole(n: nat): (w: nat)
    ensures w % 64 == 0 && w + n % 64 == n
  {
    n / 64 * 64
  }

  lemma Rejoin(message: seq<Byte>, w: nat, more: seq<Byte>, buffer: seq<Byte>, index: nat)
    requires w <= |message| && index <= |buffer| && buffer[..index] == message[w..] && buffer[index..] == more
    ensures message[..w] + buffer == message + more
  {
    assert buffer == buffer[..index] + buffer[index..];
  }

  /** Topping up the buffer makes it the message's next block. */
  lemma BufferFull(message: seq<Byte>, input: seq<Byte>, buffer: seq<Byte>)
    requires |buffer| == 64 && 64 - |message| % 64 <= |input|
    requires buffer[..|message| % 64] == message[Whole(|message|)..]
    requires buffer[|message| % 64..] == input[..64 - |message| % 64]
    ensures (|message| + (64 - |message| % 64)) % 64 == 0
    ensures Absorb(message + input[..64 - |message| % 64]) == Compress(Absorb(message[..Whole(|message|)]), buffer)
  {
    hide Compress;
    var (w, index) := (Whole(|message|), |message| % 64);
    assert |message| + (64 - index) == w + 64;
    Rejoin(message, w, input[..64 - index], buffer, index);
    AbsorbBlock(message[..w], buffer);
  }

  lemma TailMoved(message: seq<Byte>, input: seq<Byte>, i: nat)
    requires i <= |input| < i + 64 && (|message| + i) % 64 == 0
    ensures
      var all := message + input;
      && Whole(|all|) == |message| + i && |all| % 64 == |input| - i
      && all[..Whole(|all|)] == message + input[..i] && all[Whole(|all|)..] == input[i..]
  {
  }

  lemma TailGrown(message: seq<Byte>, input: seq<Byte>)
    requires |message| % 64 + |input| < 64
    ensures
      var all := message + input;
      && Whole(|all|) == Whole(|message|) && |all| % 64 == |message| % 64 + |input|
      && all[..Whole(|all|)] == message[..Whole(|message|)]
      && all[Whole(|all|)..] == message[Whole(|message|)..] + input
  {
  }

  /** A length cut to 32 bits. */
  function Low32(n: nat): (r: Uint32)
    ensures r <= n && (n < 0x1_0000_0000 ==> r == n)
  {
    n % 0x1_0000_0000
  }

  class Context {
    var finalized: bool
    const buffer: array<Byte>
    var lo: Uint32
    var hi: Uint32
    var state: Registers
    var digest: seq<Byte>
    ghost var message: seq<Byte>

    ghost predicate Valid()
      reads this, buffer
    {
      && buffer.Length == 64
      && (finalized ==> digest == Digest(message))
      && (!finalized ==>
            && Counts(lo, hi, |message|)
            && state == Absorb(message[..Whole(|message|)])
            && buffer[..|message| % 64] == message[Whole(|message|)..])
    }

    constructor ()
      ensures Valid() && fresh(buffer) && !finalized && message == []
    {
      buffer := new Byte[64];
      finalized, lo, hi, state, digest, message := false, 0, 0, Registers(0x67452301, 0xefcdab89, 0x98badcfe, 0x10325476), [], [];
    }

    /** MD5::MD5(text): the length handed to update is cut to 32 bits. */
    constructor FromText(text: seq<Byte>)
      requires Fits(0, Low32(|text|))
      ensures Valid() && fresh(buffer) && finalized && message == text[..Low32(|text|)]
    {
      buffer := new Byte[64];
      finalized, lo, hi, state, digest, message := false, 0, 0, Registers(0x67452301, 0xefcdab89, 0x98badcfe, 0x10325476), [], [];
      new;
      assert message[..Whole(|message|)] == [];
      Update(text[..Low32(|text|)]);
      Finalize();
    }

    /** memcpy into the buffer. */
    method Fill(index: nat, piece: seq<Byte>)
      requires buffer.Length == 64 && index + |piece| <= 64
      modifies buffer
      ensures buffer[..index] == old(buffer[..index]) && buffer[index..index + |piece|] == piece
    {
      for k := 0 to |piece|
        invariant buffer[..index] == old(buffer[..index])
        invariant buffer[index..index + k] == piece[..k]
      {
        buffer[index + k] := piece[k];
      }
    }

    /** The block loop of MD5::update. */
    method Blocks(input: seq<Byte>, firstpart: nat, ghost index: nat, ghost done: seq<Byte>) returns (i: nat)
      requires |input| < TWO_32 && index < 64 && firstpart == 64 - index <= |input| && Fits(index, |input|)
      requires (|done| + firstpart) % 64 == 0
      modifies this`state
      ensures firstpart <= i <= |input| < i + 64 && (|done| + i) % 64 == 0
      ensures old(state) == Absorb(done + input[..firstpart]) ==> state == Absorb(done + input[..i])
    {
      hide Compress;
      i := firstpart;
      while Guard(i, |input|)
        invariant firstpart <= i <= |input| && (|done| + i) % 64 == 0 && (i - firstpart) % 64 == 0
        invariant old(state) == Absorb(done + input[..firstpart]) ==> state == Absorb(done + input[..i])
        decreases |input| - i
      {
        NoWrap(index, |input|, i);
        assert (|done| + i + 64) % 64 == 0;
        state := Transform(state, input[i..i + 64]);
        AbsorbMore(done, input, i);
        Multiple64(|done| + i, -1);
        Multiple64(i - firstpart, -1);
        i := i + 64;
      }
      NoWrap(index, |input|, i);
    }

    /** The part of MD5::update that runs when the piece fills the buffer. */
    method TakeBlocks(input: seq<Byte>, index: nat) returns (i: nat)
      requires buffer.Length == 64 && |input| < TWO_32 && index < 64 && 64 - index <= |input| && Fits(index, |input|)
      requires !finalized ==>
        && index == |message| % 64 && state == Absorb(message[..Whole(|message|)])
        && buffer[..index] == message[Whole(|message|)..]
      modifies this`state, buffer
      ensures 0 < i <= |input| < i + 64
      ensures !finalized ==> (|message| + i) % 64 == 0 && state == Absorb(message + input[..i])
    {
      hide Compress;
      var firstpart := 64 - index;
      Fill(index, input[..firstpart]);
      ghost var done := if finalized then Zeros(index) else message;
      if !finalized {
        assert buffer[..][..index] == buffer[..index] && buffer[..][index..] == buffer[index..index + firstpart];
        BufferFull(message, input, buffer[..]);
      }
      state := Transform(state, buffer[..]);
      i := Blocks(input, firstpart, index, done);
    }

    /** MD5::update */
    method Update(input: seq<Byte>)
      requires Valid() && |input| < TWO_32 && Fits(lo / 8 % 64, |input|)
      modifies this`lo, this`hi, this`state, this`message, buffer
      ensures Valid() && message == if finalized then old(message) else old(message) + input
    {
      hide Absorb, Digest, Counts, Fits, Whole;
      var index := lo / 8 % 64;
      if !finalized {
        IndexOf(lo, hi, |message|);
      }
      lo, hi := AddLength(lo, hi, |input|, |message|);
      var firstpart := 64 - index;
      var i: nat;
      if |input| >= firstpart {
        i := TakeBlocks(input, index);
        index := 0;
      } else {
        i := 0;
      }
      Fill(index, input[i..]);
      if !finalized {
        if i == 0 {
          TailGrown(message, input);
        } else {
          TailMoved(message, input, i);
        }
        message := message + input;
      }
    }

    /** The padding and length updates of MD5::finalize. */
    method Pad()
      requires Valid() && !finalized
      modifies this`lo, this`hi, this`state, this`message, buffer
      ensures Valid() && message == Padded(old(message))
    {
      hide Absorb, Digest, WordBytes, Fits;
      IndexOf(lo, hi, |message|);
      var bits := EncodeCount(lo, hi);
      var index := lo / 8 % 64;
      var padLen := if index < 56 then 56 - index else 120 - index;
      PaddedSplit(message, padLen);
      ShortFits(index, padLen);
      Update(([0x80] + Zeros(63))[..padLen]);
      ShortFits(lo / 8 % 64, 8);
      Update(bits);
    }

    /** What finalize leaves of the message. */
    method Wipe()
      requires buffer.Length == 64
      modifies this`lo, this`hi, buffer
      ensures lo == hi == 0 && forall k :: 0 <= k < 64 ==> buffer[k] == 0
    {
      for k := 0 to 64
        invariant forall j :: 0 <= j < k ==> buffer[j] == 0
      {
        buffer[k] := 0;
      }
      lo, hi := 0, 0;
    }

    /** MD5::finalize */
    method Finalize()
      requires Valid()
      modifies this, buffer
      ensures Valid() && finalized && message == old(message) && (old(finalized) ==> digest == old(digest))
      ensures !old(finalized) ==> lo == hi == 0 && forall k :: 0 <= k < 64 ==> buffer[k] == 0
    {
      if !finalized {
        hide Absorb, WordBytes, Output, Padded, Counts;
        ghost var original := message;
        Pad();
        PaddedWhole(original);
        digest := EncodeState(state);
        assert digest == Digest(original);
        Wipe();
        finalized := true;
        message := original;
      }
    }
  }

  /** However a message is cut into update calls, finalize yields the digest of the whole, if each piece
      fits behind what is buffered when it comes. */
  method DigestOf(pieces: seq<seq<Byte>>) returns (digest: seq<Byte>)
    requires forall k :: 0 <= k < |pieces| ==> |pieces[k]| < TWO_32 && Fits(|Concat(pieces[..k])| % 64, |pieces[k]|)
    ensures digest == Digest(Concat(pieces))
  {
    hide Digest, Padded;
    var context := new Context();
    for k := 0 to |pieces|
      invariant context.Valid() && fresh(context) && fresh(context.buffer)
      invariant !context.finalized && context.message == Concat(pieces[..k])
    {
      assert pieces[..k + 1][..k] == pieces[..k];
      IndexOf(context.lo, context.hi, |context.message|);
      context.Update(pieces[k]);
    }
    assert pieces[..|pieces|] == pieces;
    context.Finalize();
    digest := context.digest;
  }

  method EncodeCount(lo: Uint32, hi: Uint32) returns (bits: seq<Byte>)
    ensures |bits| == 8
    ensures forall n: nat :: Counts(lo, hi, n) ==> bits == LengthBytes(8 * n)
  {
    hide WordBytes;
    var words := [lo as Word, hi as Word];
    bits := Encode(words);
    assert bits[4 * 0..4 * 0 + 4] == WordBytes(words[0]) && bits[4 * 1..4 * 1 + 4] == WordBytes(words[1]);
    TwoWords(words[0], words[1], bits);
  }

  method EncodeState(state: Registers) returns (digest: seq<Byte>)
    ensures digest == Output(state)
  {
    hide WordBytes;
    var words := [state.a, state.b, state.c, state.d];
    digest := Encode(words);
    assert digest[4 * 0..4 * 0 + 4] == WordBytes(words[0]) && digest[4 * 1..4 * 1 + 4] == WordBytes(words[1]);
    assert digest[4 * 2..4 * 2 + 4] == WordBytes(words[2]) && digest[4 * 3..4 * 3 + 4] == WordBytes(words[3]);
    FourWords(state, digest);
  }

  lemma ShortFits(index: nat, length: nat)
    requires index < 64 && length <= 64
    ensures Fits(index, length)
  {
  }

  lemma TwoWords(a: Word, b: Word, bytes: seq<Byte>)
    requires |bytes| == 8 && bytes[0..4] == WordBytes(a) && bytes[4..8] == WordBytes(b)
    ensures bytes == WordBytes(a) + WordBytes(b)
  {
    assert bytes == bytes[0..4] + bytes[4..8];
  }

  lemma FourWords(r: Registers, bytes: seq<Byte>)
    requires |bytes| == 16 && bytes[0..4] == WordBytes(r.a) && bytes[4..8] == WordBytes(r.b)
    requires bytes[8..12] == WordBytes(r.c) && bytes[12..16] == WordBytes(r.d)
    ensures bytes == Output(r)
  {
    assert bytes == bytes[0..4] + bytes[4..8] + bytes[8..12] + bytes[12..16];
  }

  lemma PaddedWhole(message: seq<Byte>)
    ensures Padded(message)[..Whole(|Padded(message)|)] == Padded(message)
  {
    hide Padded;
    var p := Padded(message);
    assert |p| % 64 == 0;
  }

  /** The padding that finalize cuts from its table is the padding of section 3.1. */
  lemma PaddedSplit(message: seq<Byte>, padLen: nat)
    requires padLen == if |message| % 64 < 56 then 56 - |message| % 64 else 120 - |message| % 64
    ensures padLen <= 64
    ensures message + ([0x80] + Zeros(63))[..padLen] + LengthBytes(8 * |message|) == Padded(message)
  {
    assert (55 - |message|) % 64 == padLen - 1;
    assert ([0x80] + Zeros(63))[..padLen] == [0x80] + Zeros(padLen - 1);
  }

  lemma NoWrap(index: nat, length: Uint32, i: Uint32)
    requires index < 64 && 64 - index <= i <= length && Fits(index, length) && (i - (64 - index)) % 64 == 0
    ensures Guard(i, length) <==> i + 64 <= length
  {
    var f := 64 - index;
    assert i - f == (i - f) / 64 * 64;
    assert i <= length - (length - f) % 64;
  }
}
