/**
  The streaming message digest of RFC 1321. A context holds four chaining words, the bit count
  modulo 2^64 and the bytes of the block not yet complete; the digest must not depend on how the
  message is cut into `Update` calls.
 */
module Md5 {
  import opened Facts
  import opened Unicode

  const WORD_LIMIT: nat := 0x1_0000_0000

  /** `UINT4` */
  type Word = x: nat | x < WORD_LIMIT

  /** How far to rotate; six bits, so that 32 is one of them. */
  type Shift = bv6

  datatype Registers = Registers(a: Word, b: Word, c: Word, d: Word)

  const S11: Shift := 7
  const S12: Shift := 12
  const S13: Shift := 17
  const S14: Shift := 22
  const S21: Shift := 5
  const S22: Shift := 9
  const S23: Shift := 14
  const S24: Shift := 20
  const S31: Shift := 4
  const S32: Shift := 11
  const S33: Shift := 16
  const S34: Shift := 23
  const S41: Shift := 6
  const S42: Shift := 10
  const S43: Shift := 15
  const S44: Shift := 21

  // ----- the auxiliary functions of section 3.4 of RFC 1321

  function F(x: bv32, y: bv32, z: bv32): bv32 { (x & y) | (!x & z) }

  function G(x: bv32, y: bv32, z: bv32): bv32 { (x & z) | (y & !z) }

  function H(x: bv32, y: bv32, z: bv32): bv32 { x ^ y ^ z }

  function I(x: bv32, y: bv32, z: bv32): bv32 { y ^ (x | !z) }

  /** `ROTATE_LEFT`, for amounts strictly between 0 and 32. */
  function RotateLeft(x: bv32, n: Shift): bv32
  {
    if 0 < n < 32 then (x << n) | (x >> (32 - n)) else x
  }

  // The functions bit by bit: the positions are any bits of a word, one of them or several.

  /** Where the bits of x are set F has those of y. */
  lemma ChoiceWhereSet(x: bv32, y: bv32, z: bv32, positions: bv32)
    requires x & positions == positions
    ensures F(x, y, z) & positions == y & positions
  {
  }

  /** Where they are clear it has those of z. */
  lemma ChoiceWhereClear(x: bv32, y: bv32, z: bv32, positions: bv32)
    requires x & positions == 0
    ensures F(x, y, z) & positions == z & positions
  {
  }

  /** Where the bits of z are set G has those of x. */
  lemma SelectionWhereSet(x: bv32, y: bv32, z: bv32, positions: bv32)
    requires z & positions == positions
    ensures G(x, y, z) & positions == x & positions
  {
  }

  /** Where they are clear it has those of y. */
  lemma SelectionWhereClear(x: bv32, y: bv32, z: bv32, positions: bv32)
    requires z & positions == 0
    ensures G(x, y, z) & positions == y & positions
  {
  }

  /** Where x and y agree H has the bits of z. */
  lemma ParityWhereEqual(x: bv32, y: bv32, z: bv32, positions: bv32)
    requires x & positions == y & positions
    ensures H(x, y, z) & positions == z & positions
  {
  }

  /** Where they differ it has the other ones. */
  lemma ParityWhereDifferent(x: bv32, y: bv32, z: bv32, positions: bv32)
    requires x & positions == !y & positions
    ensures H(x, y, z) & positions == !z & positions
  {
  }

  /** Where a bit of x is set I has the other bit than y. */
  lemma InversionWhereSet(x: bv32, y: bv32, z: bv32, positions: bv32)
    requires x & positions == positions
    ensures I(x, y, z) & positions == !y & positions
  {
  }

  /** So it has where a bit of z is clear. */
  lemma InversionWhereClear(x: bv32, y: bv32, z: bv32, positions: bv32)
    requires z & positions == 0
    ensures I(x, y, z) & positions == !y & positions
  {
  }

  /** Elsewhere it has the bits of y. */
  lemma InversionElsewhere(x: bv32, y: bv32, z: bv32, positions: bv32)
    requires x & positions == 0 && z & positions == positions
    ensures I(x, y, z) & positions == y & positions
  {
  }

  // To rotate by n is to multiply by 2^n modulo 2^32 and to add the n bits that have been lost.

  lemma RotateBy4(x: bv32)
    ensures RotateLeft(x, 4) == x * 0x10 + x / 0x10000000
  {
    assert RotateLeft(x, 4) == (x << 4) | (x >> 28);
  }

  lemma RotateBy5(x: bv32)
    ensures RotateLeft(x, 5) == x * 0x20 + x / 0x8000000
  {
    assert RotateLeft(x, 5) == (x << 5) | (x >> 27);
  }

  lemma RotateBy6(x: bv32)
    ensures RotateLeft(x, 6) == x * 0x40 + x / 0x4000000
  {
    assert RotateLeft(x, 6) == (x << 6) | (x >> 26);
  }

  lemma RotateBy7(x: bv32)
    ensures RotateLeft(x, 7) == x * 0x80 + x / 0x2000000
  {
    assert RotateLeft(x, 7) == (x << 7) | (x >> 25);
  }

  lemma RotateBy9(x: bv32)
    ensures RotateLeft(x, 9) == x * 0x200 + x / 0x800000
  {
    assert RotateLeft(x, 9) == (x << 9) | (x >> 23);
  }

  lemma RotateBy10(x: bv32)
    ensures RotateLeft(x, 10) == x * 0x400 + x / 0x400000
  {
    assert RotateLeft(x, 10) == (x << 10) | (x >> 22);
  }

  lemma RotateBy11(x: bv32)
    ensures RotateLeft(x, 11) == x * 0x800 + x / 0x200000
  {
    assert RotateLeft(x, 11) == (x << 11) | (x >> 21);
  }

  lemma RotateBy12(x: bv32)
    ensures RotateLeft(x, 12) == x * 0x1000 + x / 0x100000
  {
    assert RotateLeft(x, 12) == (x << 12) | (x >> 20);
  }

  lemma RotateBy14(x: bv32)
    ensures RotateLeft(x, 14) == x * 0x4000 + x / 0x40000
  {
    assert RotateLeft(x, 14) == (x << 14) | (x >> 18);
  }

  lemma RotateBy15(x: bv32)
    ensures RotateLeft(x, 15) == x * 0x8000 + x / 0x20000
  {
    assert RotateLeft(x, 15) == (x << 15) | (x >> 17);
  }

  lemma RotateBy16(x: bv32)
    ensures RotateLeft(x, 16) == x * 0x10000 + x / 0x10000
  {
    assert RotateLeft(x, 16) == (x << 16) | (x >> 16);
  }

  lemma RotateBy17(x: bv32)
    ensures RotateLeft(x, 17) == x * 0x20000 + x / 0x8000
  {
    assert RotateLeft(x, 17) == (x << 17) | (x >> 15);
  }

  lemma RotateBy20(x: bv32)
    ensures RotateLeft(x, 20) == x * 0x100000 + x / 0x1000
  {
    assert RotateLeft(x, 20) == (x << 20) | (x >> 12);
  }

  lemma RotateBy21(x: bv32)
    ensures RotateLeft(x, 21) == x * 0x200000 + x / 0x800
  {
    assert RotateLeft(x, 21) == (x << 21) | (x >> 11);
  }

  lemma RotateBy22(x: bv32)
    ensures RotateLeft(x, 22) == x * 0x400000 + x / 0x400
  {
    assert RotateLeft(x, 22) == (x << 22) | (x >> 10);
  }

  lemma RotateBy23(x: bv32)
    ensures RotateLeft(x, 23) == x * 0x800000 + x / 0x200
  {
    assert RotateLeft(x, 23) == (x << 23) | (x >> 9);
  }

  lemma RotationsOfRound1(x: bv32)
    ensures RotateLeft(x, 7) == x * 0x80 + x / 0x2000000
    ensures RotateLeft(x, 12) == x * 0x1000 + x / 0x100000
    ensures RotateLeft(x, 17) == x * 0x20000 + x / 0x8000
    ensures RotateLeft(x, 22) == x * 0x400000 + x / 0x400
  {
    RotateBy7(x);
    RotateBy12(x);
    RotateBy17(x);
    RotateBy22(x);
  }

  lemma RotationsOfRound2(x: bv32)
    ensures RotateLeft(x, 5) == x * 0x20 + x / 0x8000000
    ensures RotateLeft(x, 9) == x * 0x200 + x / 0x800000
    ensures RotateLeft(x, 14) == x * 0x4000 + x / 0x40000
    ensures RotateLeft(x, 20) == x * 0x100000 + x / 0x1000
  {
    RotateBy5(x);
    RotateBy9(x);
    RotateBy14(x);
    RotateBy20(x);
  }

  lemma RotationsOfRound3(x: bv32)
    ensures RotateLeft(x, 4) == x * 0x10 + x / 0x10000000
    ensures RotateLeft(x, 11) == x * 0x800 + x / 0x200000
    ensures RotateLeft(x, 16) == x * 0x10000 + x / 0x10000
    ensures RotateLeft(x, 23) == x * 0x800000 + x / 0x200
  {
    RotateBy4(x);
    RotateBy11(x);
    RotateBy16(x);
    RotateBy23(x);
  }

  lemma RotationsOfRound4(x: bv32)
    ensures RotateLeft(x, 6) == x * 0x40 + x / 0x4000000
    ensures RotateLeft(x, 10) == x * 0x400 + x / 0x400000
    ensures RotateLeft(x, 15) == x * 0x8000 + x / 0x20000
    ensures RotateLeft(x, 21) == x * 0x200000 + x / 0x800
  {
    RotateBy6(x);
    RotateBy10(x);
    RotateBy15(x);
    RotateBy21(x);
  }

  function Plus(x: Word, y: Word): Word { (x + y) % WORD_LIMIT }

  /** Wrapping after every addition is wrapping once at the end. */
  lemma SumsWrapOnce(a: Word, f: Word, x: Word, ac: Word)
    ensures Plus(a, Plus(Plus(f, x), ac)) == (a + f + x + ac) % 0x1_0000_0000
  {
    WrapTwice(f + x, ac);
    WrapTwice(f + x + ac, a);
  }

  lemma WrapTwice(u: nat, v: nat)
    ensures (u % WORD_LIMIT + v) % WORD_LIMIT == (u + v) % WORD_LIMIT
  {
    var w := u % WORD_LIMIT + v;
    Split(WORD_LIMIT, u + v, u / WORD_LIMIT + w / WORD_LIMIT, w % WORD_LIMIT);
  }

  // ----- the macros

  function FF(a: Word, b: Word, c: Word, d: Word, x: Word, s: Shift, ac: Word): Word
  {
    var sum := Plus(a, Plus(Plus(F(b as bv32, c as bv32, d as bv32) as Word, x), ac));
    Plus(RotateLeft(sum as bv32, s) as Word, b)
  }

  function GG(a: Word, b: Word, c: Word, d: Word, x: Word, s: Shift, ac: Word): Word
  {
    var sum := Plus(a, Plus(Plus(G(b as bv32, c as bv32, d as bv32) as Word, x), ac));
    Plus(RotateLeft(sum as bv32, s) as Word, b)
  }

  function HH(a: Word, b: Word, c: Word, d: Word, x: Word, s: Shift, ac: Word): Word
  {
    var sum := Plus(a, Plus(Plus(H(b as bv32, c as bv32, d as bv32) as Word, x), ac));
    Plus(RotateLeft(sum as bv32, s) as Word, b)
  }

  function II(a: Word, b: Word, c: Word, d: Word, x: Word, s: Shift, ac: Word): Word
  {
    var sum := Plus(a, Plus(Plus(I(b as bv32, c as bv32, d as bv32) as Word, x), ac));
    Plus(RotateLeft(sum as bv32, s) as Word, b)
  }

  type Macro = (Word, Word, Word, Word, Word, Shift, Word) -> Word

  /**
    What a round is made of. The rounds and the streaming are proved for any such functions, so that
    no proof has to look at single bits or at wrap-around; the digest uses those above.
   */
  datatype Macros = Macros(ff: Macro, gg: Macro, hh: Macro, ii: Macro, plus: (Word, Word) -> Word)

  const MD5_MACROS: Macros := Macros(FF, GG, HH, II, Plus)

  // ----- the tables of the four rounds: which word of the block, which shift, which constant

  type Index = k: nat | k < 16

  /** One entry `[abcd k s i]` of section 3.4 of RFC 1321, with the constant that belongs to i. */
  datatype Operation = Operation(word: Index, shift: Shift, constant: Word)

  const ROUND1: seq<Operation> := [
    Operation(0, 7, 0xd76aa478),
    Operation(1, 12, 0xe8c7b756),
    Operation(2, 17, 0x242070db),
    Operation(3, 22, 0xc1bdceee),
    Operation(4, 7, 0xf57c0faf),
    Operation(5, 12, 0x4787c62a),
    Operation(6, 17, 0xa8304613),
    Operation(7, 22, 0xfd469501),
    Operation(8, 7, 0x698098d8),
    Operation(9, 12, 0x8b44f7af),
    Operation(10, 17, 0xffff5bb1),
    Operation(11, 22, 0x895cd7be),
    Operation(12, 7, 0x6b901122),
    Operation(13, 12, 0xfd987193),
    Operation(14, 17, 0xa679438e),
    Operation(15, 22, 0x49b40821)
  ]

  const ROUND2: seq<Operation> := [
    Operation(1, 5, 0xf61e2562),
    Operation(6, 9, 0xc040b340),
    Operation(11, 14, 0x265e5a51),
    Operation(0, 20, 0xe9b6c7aa),
    Operation(5, 5, 0xd62f105d),
    Operation(10, 9, 0x2441453),
    Operation(15, 14, 0xd8a1e681),
    Operation(4, 20, 0xe7d3fbc8),
    Operation(9, 5, 0x21e1cde6),
    Operation(14, 9, 0xc33707d6),
    Operation(3, 14, 0xf4d50d87),
    Operation(8, 20, 0x455a14ed),
    Operation(13, 5, 0xa9e3e905),
    Operation(2, 9, 0xfcefa3f8),
    Operation(7, 14, 0x676f02d9),
    Operation(12, 20, 0x8d2a4c8a)
  ]

  const ROUND3: seq<Operation> := [
    Operation(5, 4, 0xfffa3942),
    Operation(8, 11, 0x8771f681),
    Operation(11, 16, 0x6d9d6122),
    Operation(14, 23, 0xfde5380c),
    Operation(1, 4, 0xa4beea44),
    Operation(4, 11, 0x4bdecfa9),
    Operation(7, 16, 0xf6bb4b60),
    Operation(10, 23, 0xbebfbc70),
    Operation(13, 4, 0x289b7ec6),
    Operation(0, 11, 0xeaa127fa),
    Operation(3, 16, 0xd4ef3085),
    Operation(6, 23, 0x4881d05),
    Operation(9, 4, 0xd9d4d039),
    Operation(12, 11, 0xe6db99e5),
    Operation(15, 16, 0x1fa27cf8),
    Operation(2, 23, 0xc4ac5665)
  ]

  const ROUND4: seq<Operation> := [
    Operation(0, 6, 0xf4292244),
    Operation(7, 10, 0x432aff97),
    Operation(14, 15, 0xab9423a7),
    Operation(5, 21, 0xfc93a039),
    Operation(12, 6, 0x655b59c3),
    Operation(3, 10, 0x8f0ccc92),
    Operation(10, 15, 0xffeff47d),
    Operation(1, 21, 0x85845dd1),
    Operation(8, 6, 0x6fa87e4f),
    Operation(15, 10, 0xfe2ce6e0),
    Operation(6, 15, 0xa3014314),
    Operation(13, 21, 0x4e0811a1),
    Operation(4, 6, 0xf7537e82),
    Operation(11, 10, 0xbd3af235),
    Operation(2, 15, 0x2ad7d2bb),
    Operation(9, 21, 0xeb86d391)
  ]

  /** One operation: the new value of the first register; then the registers move on by one place. */
  function Step(m: Macro, o: Operation, s: Registers, x: seq<Word>): Registers
    requires |x| == 16
  {
    Registers(s.d, m(s.a, s.b, s.c, s.d, x[o.word], o.shift, o.constant), s.b, s.c)
  }

  /** The first n operations of a table. (The second measure only keeps the definition from being unrolled.) */
  function Steps(m: Macro, ops: seq<Operation>, s: Registers, x: seq<Word>, n: nat): Registers
    requires |x| == 16 && n <= |ops|
    decreases n, x
  {
    if n == 0 then s else Step(m, ops[n - 1], Steps(m, ops, s, x, n - 1), x)
  }

  /** Round 1 of `MD5Transform`. */
  method Round1(ff: Macro, s: Registers, x: seq<Word>) returns (t: Registers)
    requires |x| == 16
    ensures t == Steps(ff, ROUND1, s, x, 16)
  {
    var a, b, c, d := s.a, s.b, s.c, s.d;
    ghost var ops := ROUND1;
    a := ff(a, b, c, d, x[0], S11, 0xd76aa478);
    assert Registers(d, a, b, c) == Steps(ff, ops, s, x, 1);
    d := ff(d, a, b, c, x[1], S12, 0xe8c7b756);
    assert Registers(c, d, a, b) == Steps(ff, ops, s, x, 2);
    c := ff(c, d, a, b, x[2], S13, 0x242070db);
    assert Registers(b, c, d, a) == Steps(ff, ops, s, x, 3);
    b := ff(b, c, d, a, x[3], S14, 0xc1bdceee);
    assert Registers(a, b, c, d) == Steps(ff, ops, s, x, 4);
    a := ff(a, b, c, d, x[4], S11, 0xf57c0faf);
    assert Registers(d, a, b, c) == Steps(ff, ops, s, x, 5);
    d := ff(d, a, b, c, x[5], S12, 0x4787c62a);
    assert Registers(c, d, a, b) == Steps(ff, ops, s, x, 6);
    c := ff(c, d, a, b, x[6], S13, 0xa8304613);
    assert Registers(b, c, d, a) == Steps(ff, ops, s, x, 7);
    b := ff(b, c, d, a, x[7], S14, 0xfd469501);
    assert Registers(a, b, c, d) == Steps(ff, ops, s, x, 8);
    a := ff(a, b, c, d, x[8], S11, 0x698098d8);
    assert Registers(d, a, b, c) == Steps(ff, ops, s, x, 9);
    d := ff(d, a, b, c, x[9], S12, 0x8b44f7af);
    assert Registers(c, d, a, b) == Steps(ff, ops, s, x, 10);
    c := ff(c, d, a, b, x[10], S13, 0xffff5bb1);
    assert Registers(b, c, d, a) == Steps(ff, ops, s, x, 11);
    b := ff(b, c, d, a, x[11], S14, 0x895cd7be);
    assert Registers(a, b, c, d) == Steps(ff, ops, s, x, 12);
    a := ff(a, b, c, d, x[12], S11, 0x6b901122);
    assert Registers(d, a, b, c) == Steps(ff, ops, s, x, 13);
    d := ff(d, a, b, c, x[13], S12, 0xfd987193);
    assert Registers(c, d, a, b) == Steps(ff, ops, s, x, 14);
    c := ff(c, d, a, b, x[14], S13, 0xa679438e);
    assert Registers(b, c, d, a) == Steps(ff, ops, s, x, 15);
    b := ff(b, c, d, a, x[15], S14, 0x49b40821);
    assert Registers(a, b, c, d) == Steps(ff, ops, s, x, 16);
    t := Registers(a, b, c, d);
  }

  /** Round 2 of `MD5Transform`. */
  method Round2(gg: Macro, s: Registers, x: seq<Word>) returns (t: Registers)
    requires |x| == 16
    ensures t == Steps(gg, ROUND2, s, x, 16)
  {
    var a, b, c, d := s.a, s.b, s.c, s.d;
    ghost var ops := ROUND2;
    a := gg(a, b, c, d, x[1], S21, 0xf61e2562);
    assert Registers(d, a, b, c) == Steps(gg, ops, s, x, 1);
    d := gg(d, a, b, c, x[6], S22, 0xc040b340);
    assert Registers(c, d, a, b) == Steps(gg, ops, s, x, 2);
    c := gg(c, d, a, b, x[11], S23, 0x265e5a51);
    assert Registers(b, c, d, a) == Steps(gg, ops, s, x, 3);
    b := gg(b, c, d, a, x[0], S24, 0xe9b6c7aa);
    assert Registers(a, b, c, d) == Steps(gg, ops, s, x, 4);
    a := gg(a, b, c, d, x[5], S21, 0xd62f105d);
    assert Registers(d, a, b, c) == Steps(gg, ops, s, x, 5);
    d := gg(d, a, b, c, x[10], S22, 0x2441453);
    assert Registers(c, d, a, b) == Steps(gg, ops, s, x, 6);
    c := gg(c, d, a, b, x[15], S23, 0xd8a1e681);
    assert Registers(b, c, d, a) == Steps(gg, ops, s, x, 7);
    b := gg(b, c, d, a, x[4], S24, 0xe7d3fbc8);
    assert Registers(a, b, c, d) == Steps(gg, ops, s, x, 8);
    a := gg(a, b, c, d, x[9], S21, 0x21e1cde6);
    assert Registers(d, a, b, c) == Steps(gg, ops, s, x, 9);
    d := gg(d, a, b, c, x[14], S22, 0xc33707d6);
    assert Registers(c, d, a, b) == Steps(gg, ops, s, x, 10);
    c := gg(c, d, a, b, x[3], S23, 0xf4d50d87);
    assert Registers(b, c, d, a) == Steps(gg, ops, s, x, 11);
    b := gg(b, c, d, a, x[8], S24, 0x455a14ed);
    assert Registers(a, b, c, d) == Steps(gg, ops, s, x, 12);
    a := gg(a, b, c, d, x[13], S21, 0xa9e3e905);
    assert Registers(d, a, b, c) == Steps(gg, ops, s, x, 13);
    d := gg(d, a, b, c, x[2], S22, 0xfcefa3f8);
    assert Registers(c, d, a, b) == Steps(gg, ops, s, x, 14);
    c := gg(c, d, a, b, x[7], S23, 0x676f02d9);
    assert Registers(b, c, d, a) == Steps(gg, ops, s, x, 15);
    b := gg(b, c, d, a, x[12], S24, 0x8d2a4c8a);
    assert Registers(a, b, c, d) == Steps(gg, ops, s, x, 16);
    t := Registers(a, b, c, d);
  }

  /** Round 3 of `MD5Transform`. */
  method Round3(hh: Macro, s: Registers, x: seq<Word>) returns (t: Registers)
    requires |x| == 16
    ensures t == Steps(hh, ROUND3, s, x, 16)
  {
    var a, b, c, d := s.a, s.b, s.c, s.d;
    ghost var ops := ROUND3;
    a := hh(a, b, c, d, x[5], S31, 0xfffa3942);
    assert Registers(d, a, b, c) == Steps(hh, ops, s, x, 1);
    d := hh(d, a, b, c, x[8], S32, 0x8771f681);
    assert Registers(c, d, a, b) == Steps(hh, ops, s, x, 2);
    c := hh(c, d, a, b, x[11], S33, 0x6d9d6122);
    assert Registers(b, c, d, a) == Steps(hh, ops, s, x, 3);
    b := hh(b, c, d, a, x[14], S34, 0xfde5380c);
    assert Registers(a, b, c, d) == Steps(hh, ops, s, x, 4);
    a := hh(a, b, c, d, x[1], S31, 0xa4beea44);
    assert Registers(d, a, b, c) == Steps(hh, ops, s, x, 5);
    d := hh(d, a, b, c, x[4], S32, 0x4bdecfa9);
    assert Registers(c, d, a, b) == Steps(hh, ops, s, x, 6);
    c := hh(c, d, a, b, x[7], S33, 0xf6bb4b60);
    assert Registers(b, c, d, a) == Steps(hh, ops, s, x, 7);
    b := hh(b, c, d, a, x[10], S34, 0xbebfbc70);
    assert Registers(a, b, c, d) == Steps(hh, ops, s, x, 8);
    a := hh(a, b, c, d, x[13], S31, 0x289b7ec6);
    assert Registers(d, a, b, c) == Steps(hh, ops, s, x, 9);
    d := hh(d, a, b, c, x[0], S32, 0xeaa127fa);
    assert Registers(c, d, a, b) == Steps(hh, ops, s, x, 10);
    c := hh(c, d, a, b, x[3], S33, 0xd4ef3085);
    assert Registers(b, c, d, a) == Steps(hh, ops, s, x, 11);
    b := hh(b, c, d, a, x[6], S34, 0x4881d05);
    assert Registers(a, b, c, d) == Steps(hh, ops, s, x, 12);
    a := hh(a, b, c, d, x[9], S31, 0xd9d4d039);
    assert Registers(d, a, b, c) == Steps(hh, ops, s, x, 13);
    d := hh(d, a, b, c, x[12], S32, 0xe6db99e5);
    assert Registers(c, d, a, b) == Steps(hh, ops, s, x, 14);
    c := hh(c, d, a, b, x[15], S33, 0x1fa27cf8);
    assert Registers(b, c, d, a) == Steps(hh, ops, s, x, 15);
    b := hh(b, c, d, a, x[2], S34, 0xc4ac5665);
    assert Registers(a, b, c, d) == Steps(hh, ops, s, x, 16);
    t := Registers(a, b, c, d);
  }

  /** Round 4 of `MD5Transform`. */
  method Round4(ii: Macro, s: Registers, x: seq<Word>) returns (t: Registers)
    requires |x| == 16
    ensures t == Steps(ii, ROUND4, s, x, 16)
  {
    var a, b, c, d := s.a, s.b, s.c, s.d;
    ghost var ops := ROUND4;
    a := ii(a, b, c, d, x[0], S41, 0xf4292244);
    assert Registers(d, a, b, c) == Steps(ii, ops, s, x, 1);
    d := ii(d, a, b, c, x[7], S42, 0x432aff97);
    assert Registers(c, d, a, b) == Steps(ii, ops, s, x, 2);
    c := ii(c, d, a, b, x[14], S43, 0xab9423a7);
    assert Registers(b, c, d, a) == Steps(ii, ops, s, x, 3);
    b := ii(b, c, d, a, x[5], S44, 0xfc93a039);
    assert Registers(a, b, c, d) == Steps(ii, ops, s, x, 4);
    a := ii(a, b, c, d, x[12], S41, 0x655b59c3);
    assert Registers(d, a, b, c) == Steps(ii, ops, s, x, 5);
    d := ii(d, a, b, c, x[3], S42, 0x8f0ccc92);
    assert Registers(c, d, a, b) == Steps(ii, ops, s, x, 6);
    c := ii(c, d, a, b, x[10], S43, 0xffeff47d);
    assert Registers(b, c, d, a) == Steps(ii, ops, s, x, 7);
    b := ii(b, c, d, a, x[1], S44, 0x85845dd1);
    assert Registers(a, b, c, d) == Steps(ii, ops, s, x, 8);
    a := ii(a, b, c, d, x[8], S41, 0x6fa87e4f);
    assert Registers(d, a, b, c) == Steps(ii, ops, s, x, 9);
    d := ii(d, a, b, c, x[15], S42, 0xfe2ce6e0);
    assert Registers(c, d, a, b) == Steps(ii, ops, s, x, 10);
    c := ii(c, d, a, b, x[6], S43, 0xa3014314);
    assert Registers(b, c, d, a) == Steps(ii, ops, s, x, 11);
    b := ii(b, c, d, a, x[13], S44, 0x4e0811a1);
    assert Registers(a, b, c, d) == Steps(ii, ops, s, x, 12);
    a := ii(a, b, c, d, x[4], S41, 0xf7537e82);
    assert Registers(d, a, b, c) == Steps(ii, ops, s, x, 13);
    d := ii(d, a, b, c, x[11], S42, 0xbd3af235);
    assert Registers(c, d, a, b) == Steps(ii, ops, s, x, 14);
    c := ii(c, d, a, b, x[2], S43, 0x2ad7d2bb);
    assert Registers(b, c, d, a) == Steps(ii, ops, s, x, 15);
    b := ii(b, c, d, a, x[9], S44, 0xeb86d391);
    assert Registers(a, b, c, d) == Steps(ii, ops, s, x, 16);
    t := Registers(a, b, c, d);
  }

  // ----- words and bytes

  /** The k low-order bytes of v, lowest first. */
  function LittleEndian(v: nat, k: nat): (b: seq<byte>)
    ensures |b| == k
    decreases k, v
  {
    if k == 0 then [] else [v % 0x100] + LittleEndian(v / 0x100, k - 1)
  }

  function NumberOf(b: seq<byte>): nat
  {
    if b == [] then 0 else b[0] + 0x100 * NumberOf(b[1..])
  }

  /** How many numbers k bytes can tell apart. */
  function Limit(k: nat): (n: nat)
    ensures n > 0
  {
    if k == 0 then 1 else 0x100 * Limit(k - 1)
  }

  lemma {:induction false} LittleEndianOfNumber(b: seq<byte>)
    ensures LittleEndian(NumberOf(b), |b|) == b
    ensures NumberOf(b) < Limit(|b|)
  {
    if b != [] {
      LittleEndianOfNumber(b[1..]);
      Split(0x100, NumberOf(b), NumberOf(b[1..]), b[0]);
    }
  }

  lemma {:induction false} NumberOfLittleEndian(v: nat, k: nat)
    requires v < Limit(k)
    ensures NumberOf(LittleEndian(v, k)) == v
    decreases k
  {
    if k > 0 {
      NumberOfLittleEndian(v / 0x100, k - 1);
      assert LittleEndian(v, k)[1..] == LittleEndian(v / 0x100, k - 1);
    }
  }

  lemma MoveFactor(q: nat, n: nat)
    ensures q * (0x100 * n) == 0x100 * (q * n)
  {
  }

  /** Taking the lowest byte off a number that is split higher up. */
  lemma LowestByte(v: nat, m: nat, r: nat, b: seq<byte>, j: nat, k: nat)
    requires v == 0x100 * m + r && j > 0
    requires LittleEndian(m + r / 0x100, j - 1 + k) == LittleEndian(r / 0x100, j - 1) + b
    ensures LittleEndian(v, j + k) == LittleEndian(r, j) + b
  {
    Split(0x100, v, m + r / 0x100, r % 0x100);
    assert LittleEndian(v, j + k) == [r % 0x100] + LittleEndian(m + r / 0x100, j - 1 + k);
    assert LittleEndian(r, j) == [r % 0x100] + LittleEndian(r / 0x100, j - 1);
    Regroup([r % 0x100], LittleEndian(r / 0x100, j - 1), b);
  }

  /** q times Limit(k), factor by factor. */
  function Scaled(q: nat, k: nat): nat
  {
    if k == 0 then q else 0x100 * Scaled(q, k - 1)
  }

  lemma {:induction false} ScaledIsProduct(q: nat, k: nat)
    ensures Scaled(q, k) == q * Limit(k)
  {
    if k > 0 {
      ScaledIsProduct(q, k - 1);
      MoveFactor(q, Limit(k - 1));
    }
  }

  lemma {:induction false} SplitScaled(q: nat, r: nat, j: nat, k: nat)
    requires r < Limit(j)
    ensures LittleEndian(Scaled(q, j) + r, j + k) == LittleEndian(r, j) + LittleEndian(q, k)
    decreases j
  {
    if j == 0 {
      assert [] + LittleEndian(q, k) == LittleEndian(q, k);
    } else {
      SplitScaled(q, r / 0x100, j - 1, k);
      LowestByte(Scaled(q, j) + r, Scaled(q, j - 1), r, LittleEndian(q, k), j, k);
    }
  }

  /** The low bytes of a number are those of its remainder, the high ones those of its quotient. */
  lemma LittleEndianSplit(q: nat, r: nat, j: nat, k: nat)
    requires r < Limit(j)
    ensures LittleEndian(q * Limit(j) + r, j + k) == LittleEndian(r, j) + LittleEndian(q, k)
  {
    ScaledIsProduct(q, j);
    SplitScaled(q, r, j, k);
  }

  type Quad = b: seq<byte> | |b| == 4 witness [0, 0, 0, 0]

  /** One word, low-order byte first. */
  function WordBytes(w: Word): Quad
  {
    LittleEndian(w, 4)
  }

  function QuadWord(b: Quad): Word
  {
    LittleEndianOfNumber(b);
    NumberOf(b)
  }

  /** The bytes of the words in turn. */
  function Spread(f: Word -> Quad, ws: seq<Word>): (b: seq<byte>)
    ensures |b| == 4 * |ws|
  {
    if ws == [] then [] else Spread(f, ws[..|ws| - 1]) + f(ws[|ws| - 1])
  }

  /** The words made of four bytes each. */
  function Gather(g: Quad -> Word, b: seq<byte>): (ws: seq<Word>)
    ensures |ws| == |b| / 4
  {
    if |b| < 4 then [] else Gather(g, b[..|b| - 4]) + [g(b[|b| - 4..])]
  }

  function BytesOf(ws: seq<Word>): seq<byte> { Spread(WordBytes, ws) }

  function WordsOf(b: seq<byte>): seq<Word> { Gather(QuadWord, b) }

  lemma SpreadOneMore(f: Word -> Quad, ws: seq<Word>, w: Word)
    ensures Spread(f, ws + [w]) == Spread(f, ws) + f(w)
  {
    assert (ws + [w])[..|ws|] == ws;
  }

  lemma {:induction false} GatherOfSpread(f: Word -> Quad, g: Quad -> Word, ws: seq<Word>)
    requires forall w :: g(f(w)) == w
    ensures Gather(g, Spread(f, ws)) == ws
  {
    if ws != [] {
      var init, last := ws[..|ws| - 1], ws[|ws| - 1];
      GatherOfSpread(f, g, init);
    }
  }

  lemma {:induction false} SpreadOfGather(f: Word -> Quad, g: Quad -> Word, b: seq<byte>, k: nat)
    requires forall q :: f(g(q)) == q
    requires |b| == 4 * k
    ensures Spread(f, Gather(g, b)) == b
    decreases k
  {
    if k > 0 {
      var init, last := b[..|b| - 4], b[|b| - 4..];
      SpreadOfGather(f, g, init, k - 1);
      SpreadOneMore(f, Gather(g, init), g(last));
    }
  }

  lemma WordRoundTrip(w: Word)
    ensures QuadWord(WordBytes(w)) == w
  {
    NumberOfLittleEndian(w, 4);
  }

  lemma QuadRoundTrip(q: Quad)
    ensures WordBytes(QuadWord(q)) == q
  {
    LittleEndianOfNumber(q);
  }

  /** `Decode` undoes `Encode`. */
  lemma DecodeOfEncode(ws: seq<Word>)
    ensures WordsOf(BytesOf(ws)) == ws
  {
    forall w: Word
      ensures QuadWord(WordBytes(w)) == w
    {
      WordRoundTrip(w);
    }
    GatherOfSpread(WordBytes, QuadWord, ws);
  }

  /** `Encode` undoes `Decode`. */
  lemma EncodeOfDecode(b: seq<byte>)
    requires |b| % 4 == 0
    ensures BytesOf(WordsOf(b)) == b
  {
    forall q: Quad
      ensures WordBytes(QuadWord(q)) == q
    {
      QuadRoundTrip(q);
    }
    SpreadOfGather(WordBytes, QuadWord, b, |b| / 4);
  }

  lemma LittleEndianTwo(v: nat, k: nat)
    ensures LittleEndian(v, k + 2) == [v % 0x100, v / 0x100 % 0x100] + LittleEndian(v / 0x100 / 0x100, k)
  {
    var w := v / 0x100;
    assert LittleEndian(w, k + 1) == [w % 0x100] + LittleEndian(w / 0x100, k);
    assert LittleEndian(v, k + 2) == [v % 0x100] + LittleEndian(w, k + 1);
  }

  lemma WordBytesByShifts(w: Word)
    ensures WordBytes(w) == [w % 0x100, w / 0x100 % 0x100, w / 0x1_0000 % 0x100, w / 0x100_0000 % 0x100]
  {
    LittleEndianTwo(w, 2);
    LittleEndianTwo(w / 0x1_0000, 0);
  }

  /** Words into bytes; `len` is a multiple of four. */
  method Encode(output: array<byte>, input: array<Word>, len: nat)
    requires len % 4 == 0 && len <= output.Length && len <= 4 * input.Length
    modifies output
    ensures output[..len] == BytesOf(input[..len / 4])
    ensures output[len..] == old(output[len..])
  {
    var i, j := 0, 0;
    while j < len
      invariant j == 4 * i <= len
      invariant output[..j] == BytesOf(input[..i])
      invariant output[len..] == old(output[len..])
    {
      EncodeWord(output, j, input[i]);
      SpreadOneMore(WordBytes, input[..i], input[i]);
      assert input[..i + 1] == input[..i] + [input[i]];
      i, j := i + 1, j + 4;
    }
  }

  method EncodeWord(output: array<byte>, j: nat, w: Word)
    requires j + 4 <= output.Length
    modifies output
    ensures output[..j + 4] == old(output[..j]) + WordBytes(w)
    ensures output[j + 4..] == old(output[j + 4..])
  {
    output[j] := w % 0x100;
    output[j + 1] := w / 0x100 % 0x100;
    output[j + 2] := w / 0x1_0000 % 0x100;
    output[j + 3] := w / 0x100_0000 % 0x100;
    WordBytesByShifts(w);
  }

  /** Four bytes shifted into place; the source joins them with a bitwise or, which here adds. */
  function WordByShifts(b0: byte, b1: byte, b2: byte, b3: byte): Word
  {
    (b0 as int) + 0x100 * (b1 as int) + 0x1_0000 * (b2 as int) + 0x100_0000 * (b3 as int)
  }

  lemma NumberOfOneMore(b: byte, rest: seq<byte>)
    ensures NumberOf([b] + rest) == b + 0x100 * NumberOf(rest)
  {
    assert ([b] + rest)[1..] == rest;
  }

  lemma NumberOfFour(b0: byte, b1: byte, b2: byte, b3: byte)
    ensures WordByShifts(b0, b1, b2, b3) == QuadWord([b0, b1, b2, b3])
  {
    NumberOfOneMore(b3, []);
    NumberOfOneMore(b2, [b3]);
    NumberOfOneMore(b1, [b2, b3]);
    NumberOfOneMore(b0, [b1, b2, b3]);
    assert [b3] + [] == [b3] && [b2] + [b3] == [b2, b3];
    assert [b1] + [b2, b3] == [b1, b2, b3] && [b0] + [b1, b2, b3] == [b0, b1, b2, b3];
  }

  lemma DecodeOneMore(b: seq<byte>, j: nat)
    requires j + 4 <= |b|
    ensures WordsOf(b[..j + 4]) == WordsOf(b[..j]) + [WordByShifts(b[j], b[j + 1], b[j + 2], b[j + 3])]
  {
    var q := [b[j], b[j + 1], b[j + 2], b[j + 3]];
    NumberOfFour(b[j], b[j + 1], b[j + 2], b[j + 3]);
    assert b[..j + 4] == b[..j] + q;
  }

  /** Bytes into words; `len` is a multiple of four. */
  method Decode(output: array<Word>, input: seq<byte>, len: nat)
    requires len % 4 == 0 && len <= |input| && len <= 4 * output.Length
    modifies output
    ensures output[..len / 4] == WordsOf(input[..len])
    ensures output[len / 4..] == old(output[len / 4..])
  {
    var i, j := 0, 0;
    while j < len
      invariant j == 4 * i <= len
      invariant output[..i] == WordsOf(input[..j])
      invariant output[len / 4..] == old(output[len / 4..])
    {
      output[i] := WordByShifts(input[j], input[j + 1], input[j + 2], input[j + 3]);
      DecodeOneMore(input, j);
      i, j := i + 1, j + 4;
    }
  }

  // ----- one block

  type Block = b: seq<byte> | |b| == 64 witness seq(64, _ => 0)

  function Sum(macros: Macros, s: Registers, t: Registers): Registers
  {
    Registers(macros.plus(s.a, t.a), macros.plus(s.b, t.b), macros.plus(s.c, t.c), macros.plus(s.d, t.d))
  }

  /** Step 4 of the algorithm, section 3.4 of RFC 1321, for one block. */
  function Compress(macros: Macros, s: Registers, block: Block): Registers
  {
    var x := WordsOf(block);
    var t1 := Steps(macros.ff, ROUND1, s, x, 16);
    var t2 := Steps(macros.gg, ROUND2, t1, x, 16);
    var t3 := Steps(macros.hh, ROUND3, t2, x, 16);
    Sum(macros, s, Steps(macros.ii, ROUND4, t3, x, 16))
  }

  function RegistersIn(state: array<Word>): Registers
    requires state.Length == 4
    reads state
  {
    Registers(state[0], state[1], state[2], state[3])
  }

  method MD5Transform(macros: Macros, state: array<Word>, block: Block)
    requires state.Length == 4
    modifies state
    ensures RegistersIn(state) == Compress(macros, old(RegistersIn(state)), block)
  {
    var x := new Word[16](_ => 0);
    Decode(x, block, 64);
    assert x[..16] == x[..] && block[..64] == block;
    var s := Registers(state[0], state[1], state[2], state[3]);
    var t1 := Round1(macros.ff, s, x[..]);
    var t2 := Round2(macros.gg, t1, x[..]);
    var t3 := Round3(macros.hh, t2, x[..]);
    var t4 := Round4(macros.ii, t3, x[..]);
    state[0] := macros.plus(state[0], t4.a);
    state[1] := macros.plus(state[1], t4.b);
    state[2] := macros.plus(state[2], t4.c);
    state[3] := macros.plus(state[3], t4.d);
  }

  // ----- the whole message

  const INITIAL: Registers := Registers(0x67452301, 0xefcdab89, 0x98badcfe, 0x10325476)

  /** The registers after every complete block of m. */
  function Chain(macros: Macros, s: Registers, m: seq<byte>): Registers
    decreases |m|
  {
    if |m| < 64 then s else Chain(macros, Compress(macros, s, m[..64]), m[64..])
  }

  lemma {:induction false} ChainOneMore(macros: Macros, s: Registers, m: seq<byte>, k: nat, block: Block)
    requires |m| == 64 * k
    ensures Chain(macros, s, m + block) == Compress(macros, Chain(macros, s, m), block)
    decreases k
  {
    var all := m + block;
    if k == 0 {
      assert all[..64] == block && all[64..] == [];
    } else {
      assert all[..64] == m[..64] && all[64..] == m[64..] + block;
      ChainOneMore(macros, Compress(macros, s, m[..64]), m[64..], k - 1, block);
    }
  }

  function Zeros(n: nat): (z: seq<byte>)
    ensures |z| == n && forall k :: 0 <= k < n ==> z[k] == 0
  {
    seq(n, _ => 0)
  }

  /** How many zero bytes bring n bytes and a mark byte to 56 modulo 64. */
  function ZeroCount(n: nat): (z: nat)
    ensures z < 64
  {
    var index := n - 64 * (n / 64);
    if index < 56 then 55 - index else 119 - index
  }

  /** Section 3.1: congruent to 448 modulo 512 bits, and no block of zeros more than needed. */
  lemma ZeroCountIsLeast(n: nat, z: nat)
    requires z <= ZeroCount(n)
    ensures (n + 1 + z) % 64 == 56 <==> z == ZeroCount(n)
  {
    var q := n / 64;
    assert n + 1 + ZeroCount(n) == 64 * (if n - 64 * q < 56 then q else q + 1) + 56;
  }

  /**
    Sections 3.1 and 3.2 of RFC 1321: a one bit, zero bits up to 56 modulo 64 bytes, and the length of
    the message in bits modulo 2^64, low-order byte first.
   */
  function Padding(n: nat): (b: seq<byte>)
    ensures |b| == 9 + ZeroCount(n)
  {
    [0x80] + Zeros(ZeroCount(n)) + LittleEndian(8 * n, 8)
  }

  /** A byte 0x80, zero bytes, and eight bytes that hold the bit length modulo 2^64, up to a multiple of 64 bytes. */
  lemma PaddingMeaning(n: nat)
    ensures var b := Padding(n);
            && |b| >= 9 && b[0] == 0x80 && (forall k | 1 <= k < |b| - 8 :: b[k] == 0)
            && NumberOf(b[|b| - 8..]) == 8 * n % 0x1_0000_0000_0000_0000
            && (n + |b|) % 64 == 0
  {
    var b, v := Padding(n), 8 * n;
    assert b[|b| - 8..] == LittleEndian(v, 8);
    LowBytesOf(v);
    FillsBlocks(n);
  }

  lemma FillsBlocks(n: nat)
    ensures (n + (9 + ZeroCount(n))) % 64 == 0
  {
    ZeroCountIsLeast(n, ZeroCount(n));
  }

  lemma LimitOfEight()
    ensures Limit(8) == 0x1_0000_0000_0000_0000
  {
    assert Limit(4) == 0x100 * Limit(3) && Limit(3) == 0x100 * Limit(2) && Limit(2) == 0x1_0000;
    assert Limit(8) == 0x100 * Limit(7) && Limit(7) == 0x100 * Limit(6) && Limit(6) == 0x100 * Limit(5);
  }

  lemma LowBytesOf(v: nat)
    ensures NumberOf(LittleEndian(v, 8)) == v % 0x1_0000_0000_0000_0000
  {
    var q, r := v / 0x1_0000_0000_0000_0000, v % 0x1_0000_0000_0000_0000;
    LimitOfEight();
    LittleEndianSplit(q, r, 8, 0);
    assert LittleEndian(r, 8) + [] == LittleEndian(r, 8);
    NumberOfLittleEndian(r, 8);
  }

  /** Section 3.3 of RFC 1321 gives the initial registers as bytes, low-order first: 01 23 45 67 89 and so on. */
  lemma InitialBytes()
    ensures WordBytes(INITIAL.a) == [0x01, 0x23, 0x45, 0x67] && WordBytes(INITIAL.b) == [0x89, 0xab, 0xcd, 0xef]
    ensures WordBytes(INITIAL.c) == [0xfe, 0xdc, 0xba, 0x98] && WordBytes(INITIAL.d) == [0x76, 0x54, 0x32, 0x10]
  {
    BytesLowFirst(0x01, 0x23, 0x45, 0x67);
    BytesLowFirst(0x89, 0xab, 0xcd, 0xef);
    BytesLowFirst(0xfe, 0xdc, 0xba, 0x98);
    BytesLowFirst(0x76, 0x54, 0x32, 0x10);
  }

  lemma BytesLowFirst(b0: byte, b1: byte, b2: byte, b3: byte)
    ensures WordBytes(b0 + 0x100 * b1 + 0x1_0000 * b2 + 0x100_0000 * b3) == [b0, b1, b2, b3]
  {
    var v3, v2 := b3, b2 + 0x100 * b3;
    var v1 := b1 + 0x100 * v2;
    assert LittleEndian(v3, 1) == [b3];
    assert LittleEndian(v2, 2) == [b2] + LittleEndian(v3, 1);
    assert LittleEndian(v1, 3) == [b1] + LittleEndian(v2, 2);
    assert LittleEndian(b0 + 0x100 * v1, 4) == [b0] + LittleEndian(v1, 3);
  }

  function Digest(macros: Macros, m: seq<byte>): seq<byte>
  {
    var s := Chain(macros, INITIAL, m + Padding(|m|));
    BytesOf([s.a, s.b, s.c, s.d])
  }

  lemma LastBytesOfPadding(n: nat)
    ensures var b := Padding(n); b[|b| - 8] == 8 * n % 0x100 && b[|b| - 7] == 8 * n / 0x100 % 0x100
  {
    assert LittleEndian(8 * n, 8)[0] == 8 * n % 0x100;
    assert LittleEndian(8 * n, 8)[1] == LittleEndian(8 * n / 0x100, 7)[0];
  }

  lemma NearAndCongruent(m: nat, n: nat)
    requires 8 * m % 0x100 == 8 * n % 0x100 && 8 * m / 0x100 % 0x100 == 8 * n / 0x100 % 0x100
    requires -72 <= m - n <= 72
    ensures m == n
  {
    ByDigits(8 * m);
    ByDigits(8 * n);
    var a, b := 8 * m / 0x100 / 0x100, 8 * n / 0x100 / 0x100;
    assert 8 * m - 8 * n == 0x1_0000 * (a - b);
  }

  lemma ByDigits(v: nat)
    ensures v == 0x1_0000 * (v / 0x100 / 0x100) + 0x100 * (v / 0x100 % 0x100) + v % 0x100
  {
  }

  /** No two messages are padded to the same blocks, whatever their lengths. */
  lemma PaddingIsInjective(m: seq<byte>, n: seq<byte>)
    ensures m + Padding(|m|) == n + Padding(|n|) <==> m == n
  {
    var pm, pn := Padding(|m|), Padding(|n|);
    if m + pm == n + pn {
      var all := m + pm;
      LastBytesOfPadding(|m|);
      LastBytesOfPadding(|n|);
      assert all[|all| - 8] == pm[|pm| - 8] == pn[|pn| - 8];
      assert all[|all| - 7] == pm[|pm| - 7] == pn[|pn| - 7];
      NearAndCongruent(|m|, |n|);
      assert m == all[..|m|] == n;
    }
  }

  function Whole(m: seq<byte>): seq<byte>
  {
    m[..64 * (|m| / 64)]
  }

  function Tail(m: seq<byte>): (t: seq<byte>)
    ensures Whole(m) + t == m && |t| < 64
  {
    m[64 * (|m| / 64)..]
  }

  lemma WholeAndTail(w: seq<byte>, k: nat, t: seq<byte>)
    requires |w| == 64 * k && |t| < 64
    ensures Whole(w + t) == w && Tail(w + t) == t
  {
    assert |w + t| / 64 == k;
  }

  /** The two words of the bit count, low word first. */
  ghost predicate Counts(low: Word, high: Word, n: nat)
  {
    low == 8 * n % WORD_LIMIT && high == 8 * n / WORD_LIMIT % WORD_LIMIT
  }

  /** The carry out of the low word is visible as a wrap below what was added. */
  lemma CountAdvances(low: Word, high: Word, n: nat, k: nat)
    requires Counts(low, high, n) && k < WORD_LIMIT
    ensures var shifted := 8 * k % WORD_LIMIT;
            var low' := Plus(low, shifted);
            Counts(low', Plus(if low' < shifted then Plus(high, 1) else high, k / 0x2000_0000), n + k)
  {
    var q, shifted := 8 * n / WORD_LIMIT, 8 * k % WORD_LIMIT;
    assert 8 * k == WORD_LIMIT * (k / 0x2000_0000) + shifted;
    var carry := if low + shifted < WORD_LIMIT then 0 else 1;
    Split(WORD_LIMIT, low + shifted, carry, low + shifted - WORD_LIMIT * carry);
    Split(WORD_LIMIT, 8 * (n + k), q + carry + k / 0x2000_0000, low + shifted - WORD_LIMIT * carry);
    PlusTwice(q, carry, k / 0x2000_0000);
  }

  lemma PlusTwice(q: nat, carry: nat, more: Word)
    requires carry <= 1
    ensures Plus(if carry == 1 then Plus(q % WORD_LIMIT, 1) else q % WORD_LIMIT, more) == (q + carry + more) % WORD_LIMIT
  {
    PlusReduced(q, 1);
    PlusReduced(q + carry, more);
  }

  lemma PlusReduced(q: nat, more: Word)
    ensures Plus(q % WORD_LIMIT, more) == (q + more) % WORD_LIMIT
  {
    var r := q % WORD_LIMIT + more;
    var wraps := if r < WORD_LIMIT then 0 else 1;
    Split(WORD_LIMIT, r, wraps, r - WORD_LIMIT * wraps);
    Split(WORD_LIMIT, q + more, q / WORD_LIMIT + wraps, r - WORD_LIMIT * wraps);
  }

  lemma CountIsTheIndex(low: Word, high: Word, n: nat)
    requires Counts(low, high, n)
    ensures low / 8 % 64 == n - 64 * (n / 64)
  {
    var q := 8 * n / WORD_LIMIT;
    var m := n - 0x2000_0000 * q;
    assert low == 8 * m;
    Split(64, m + 64 * (0x80_0000 * q), m / 64 + 0x80_0000 * q, m % 64);
  }

  lemma DropHighBytes(v: nat)
    ensures LittleEndian(v, 8) == LittleEndian(v % WORD_LIMIT, 4) + LittleEndian(v / WORD_LIMIT % WORD_LIMIT, 4)
  {
    var q := v / WORD_LIMIT;
    FourBytesLimit();
    LowDigits(q / WORD_LIMIT, q % WORD_LIMIT, v % WORD_LIMIT, 4);
  }

  lemma FourBytesLimit()
    ensures Limit(4) == WORD_LIMIT
  {
  }

  /** The low bytes of a number with these last two digits to the base Limit(j). */
  lemma LowDigits(rest: nat, high: nat, low: nat, j: nat)
    requires high < Limit(j) && low < Limit(j)
    ensures LittleEndian((rest * Limit(j) + high) * Limit(j) + low, j + j) == LittleEndian(low, j) + LittleEndian(high, j)
  {
    var q := rest * Limit(j) + high;
    LittleEndianSplit(q, low, j, j);
    LittleEndianSplit(rest, high, j, 0);
    assert LittleEndian(rest, 0) == [];
  }

  lemma PairBytes(low: Word, high: Word)
    ensures BytesOf([low, high]) == LittleEndian(low, 4) + LittleEndian(high, 4)
  {
    SpreadOneMore(WordBytes, [], low);
    SpreadOneMore(WordBytes, [low], high);
    assert [] + [low] == [low] && [low] + [high] == [low, high];
  }

  lemma CountAsBytes(low: Word, high: Word, n: nat)
    requires Counts(low, high, n)
    ensures BytesOf([low, high]) == LittleEndian(8 * n, 8)
  {
    DropHighBytes(8 * n);
    PairBytes(low, high);
  }

  const PADDING: seq<byte> := [0x80] + Zeros(63)

  function PadLength(index: nat): (n: nat)
    requires index < 64
    ensures 0 < n <= 64
  {
    if index < 56 then 56 - index else 120 - index
  }

  lemma PaddingBySize(n: nat)
    ensures PADDING[..PadLength(n - 64 * (n / 64))] + LittleEndian(8 * n, 8) == Padding(n)
  {
    var padLen := PadLength(n - 64 * (n / 64));
    assert padLen - 1 == ZeroCount(n);
    assert PADDING[..padLen] == [0x80] + Zeros(padLen - 1);
  }

  /** The library's two calls at the end append exactly the padding of RFC 1321. */
  lemma PaddingInTwoParts(m: seq<byte>, pad: seq<byte>, bits: seq<byte>)
    requires pad == PADDING[..PadLength(|Tail(m)|)] && bits == LittleEndian(8 * |m|, 8)
    ensures (m + pad) + bits == m + Padding(|m|)
  {
    PaddingBySize(|m|);
    Regroup(m, pad, bits);
  }

  lemma PaddedIsWhole(m: seq<byte>)
    ensures Whole(m + Padding(|m|)) == m + Padding(|m|)
  {
    var n := |m|;
    var q := n / 64;
    var blocks := if n - 64 * q < 56 then q + 1 else q + 2;
    WholeAndTail(m + Padding(n), blocks, []);
    assert m + Padding(n) + [] == m + Padding(n);
  }

  class MD5 {
    const macros: Macros
    const state: array<Word>
    const count: array<Word>
    const buffer: array<byte>
    const digestRaw: array<byte>
    /** Everything passed to `Update` since `Init`. */
    ghost var message: seq<byte>

    ghost predicate Shaped()
    {
      state.Length == 4 && count.Length == 2 && state != count &&
      buffer.Length == 64 && digestRaw.Length == 16 && buffer != digestRaw
    }

    ghost predicate CountIs(m: seq<byte>)
      reads count
    {
      && Shaped()
      && Counts(count[0], count[1], |m|)
    }

    ghost predicate Counted()
      reads this`message, count
    {
      && Shaped()
      && CountIs(message)
    }

    ghost predicate Chained()
      reads this`message, state
    {
      && Shaped()
      && RegistersIn(state) == Chain(macros, INITIAL, Whole(message))
    }

    ghost predicate Buffered()
      reads this`message, buffer
    {
      && Shaped()
      && buffer[..|Tail(message)|] == Tail(message)
    }

    ghost predicate Valid()
      reads this`message, state, count, buffer
    {
      Shaped() && Counted() && Chained() && Buffered()
    }

    constructor ()
      ensures Valid() && message == [] && macros == MD5_MACROS
      ensures fresh(state) && fresh(count) && fresh(buffer) && fresh(digestRaw)
    {
      macros := MD5_MACROS;
      state := new Word[4](_ => 0);
      count := new Word[2](_ => 0);
      buffer := new byte[64](_ => 0);
      digestRaw := new byte[16](_ => 0);
      message := [];
      new;
      Init();
    }

    method Init()
      requires Shaped()
      modifies this`message, state, count
      ensures Valid() && message == []
    {
      count[0], count[1] := 0, 0;
      state[0], state[1], state[2], state[3] := 0x67452301, 0xefcdab89, 0x98badcfe, 0x10325476;
      message := [];
    }

    /** `memcpy` into the block buffer. */
    method Copy(at: nat, input: seq<byte>)
      requires Shaped() && at + |input| <= 64
      modifies buffer
      ensures buffer[..at + |input|] == old(buffer[..at]) + input
      ensures buffer[at + |input|..] == old(buffer[at + |input|..])
    {
      forall k | 0 <= k < |input| {
        buffer[at + k] := input[k];
      }
    }

    /** The number of bytes waiting in the buffer, from the bit count alone. */
    method Index() returns (index: nat)
      requires Shaped() && Counted()
      ensures index == |Tail(message)|
    {
      CountIsTheIndex(count[0], count[1], |message|);
      index := count[0] / 8 % 64;
    }

    /** The bit count, as two words with a carry. */
    method Advance(input: seq<byte>)
      requires Shaped() && Counted() && |input| < WORD_LIMIT
      modifies count
      ensures CountIs(message + input)
    {
      var k := |input|;
      CountAdvances(count[0], count[1], |message|, k);
      var shifted := 8 * k % WORD_LIMIT;
      count[0] := Plus(count[0], shifted);
      if count[0] < shifted {
        count[1] := Plus(count[1], 1);
      }
      count[1] := Plus(count[1], k / 0x2000_0000);
    }

    /** Completes the block in the buffer with the first bytes of the input. */
    method FillBlock(index: nat, partLen: nat, input: seq<byte>)
      requires Shaped() && Chained() && Buffered() && index == |Tail(message)|
      requires index + partLen == 64 && partLen <= |input|
      modifies state, buffer
      ensures RegistersIn(state) == Chain(macros, INITIAL, message + input[..partLen])
    {
      Copy(index, input[..partLen]);
      assert buffer[..] == Tail(message) + input[..partLen];
      ChainOneMore(macros, INITIAL, Whole(message), |message| / 64, buffer[..]);
      MD5Transform(macros, state, buffer[..]);
      Regroup(Whole(message), Tail(message), input[..partLen]);
    }

    /** One block straight from the input. */
    method TakeBlock(input: seq<byte>, i: nat, ghost done: seq<byte>, ghost blocks: nat)
      returns (ghost more: seq<byte>)
      requires Shaped() && i + 64 <= |input| && done == message + input[..i] && |done| == 64 * blocks
      requires RegistersIn(state) == Chain(macros, INITIAL, done)
      modifies state
      ensures more == message + input[..i + 64] && |more| == 64 * (blocks + 1)
      ensures RegistersIn(state) == Chain(macros, INITIAL, more)
    {
      more := done + input[i..i + 64];
      ChainOneMore(macros, INITIAL, done, blocks, input[i..i + 64]);
      MD5Transform(macros, state, input[i..i + 64]);
      TakeMore(message, input, i);
    }

    /** As many blocks as the input completes: how far that took it. The index stays a machine word. */
    method Transform(index: nat, input: seq<byte>) returns (i: nat, ghost done: seq<byte>, ghost blocks: nat)
      requires Shaped() && Chained() && Buffered() && index == |Tail(message)|
      requires |input| + 63 < WORD_LIMIT && index + |input| >= 64
      modifies state, buffer
      ensures i <= |input| < i + 64 && done == message + input[..i] && |done| == 64 * blocks
      ensures RegistersIn(state) == Chain(macros, INITIAL, done)
    {
      var partLen := 64 - index;
      FillBlock(index, partLen, input);
      i, done, blocks := partLen, message + input[..partLen], |message| / 64 + 1;
      while i + 63 < |input|
        invariant i <= |input| && i + 63 < WORD_LIMIT
        invariant done == message + input[..i] && |done| == 64 * blocks
        invariant RegistersIn(state) == Chain(macros, INITIAL, done)
      {
        done := TakeBlock(input, i, done, blocks);
        i, blocks := i + 64, blocks + 1;
      }
    }

    /** What does not fill a block waits in the buffer, after the `at` bytes already there. */
    method Keep(at: nat, piece: seq<byte>, ghost whole: seq<byte>, ghost blocks: nat)
      requires Shaped() && at + |piece| < 64 && |whole| == 64 * blocks
      requires RegistersIn(state) == Chain(macros, INITIAL, whole)
      modifies this`message, buffer
      ensures message == whole + (old(buffer[..at]) + piece)
      ensures Chained() && Buffered()
    {
      Copy(at, piece);
      ghost var tail := old(buffer[..at]) + piece;
      WholeAndTail(whole, blocks, tail);
      message := whole + tail;
    }

    method UpdateLong(index: nat, input: seq<byte>)
      requires Shaped() && Chained() && Buffered() && index == |Tail(message)|
      requires |input| + 63 < WORD_LIMIT && index + |input| >= 64
      modifies this`message, state, buffer
      ensures Chained() && Buffered() && message == old(message) + input
    {
      var i, done, blocks := Transform(index, input);
      Keep(0, input[i..], done, blocks);
      Regroup(old(message), input[..i], input[i..]);
      assert input == input[..i] + input[i..];
      assert [] + input[i..] == input[i..];
    }

    method UpdateShort(index: nat, input: seq<byte>)
      requires Shaped() && Chained() && Buffered() && index == |Tail(message)|
      requires index + |input| < 64
      modifies this`message, state, buffer
      ensures Chained() && Buffered() && message == old(message) + input
    {
      Keep(index, input, Whole(message), |message| / 64);
      Regroup(Whole(old(message)), Tail(old(message)), input);
    }

    /**
      One more piece of the message. The piece must leave room below 2^32 for the 63 that the loop
      condition adds to its index.
     */
    method Update(input: seq<byte>)
      requires Valid() && |input| + 63 < WORD_LIMIT
      modifies this`message, state, count, buffer
      ensures Valid() && message == old(message) + input
    {
      var index := Index();
      Advance(input);
      if 64 - index <= |input| {
        UpdateLong(index, input);
      } else {
        UpdateShort(index, input);
      }
    }

    /** The length, before the padding changes it. */
    method EncodeCount() returns (bits: array<byte>)
      requires Shaped() && Counted()
      ensures fresh(bits) && bits[..] == LittleEndian(8 * |message|, 8)
    {
      bits := new byte[8](_ => 0);
      Encode(bits, count, 8);
      assert count[..2] == [count[0], count[1]] && bits[..8] == bits[..];
      CountAsBytes(count[0], count[1], |message|);
    }

    method EncodeState()
      requires Shaped()
      modifies digestRaw
      ensures var s := RegistersIn(state); digestRaw[..] == BytesOf([s.a, s.b, s.c, s.d])
    {
      Encode(digestRaw, state, 16);
      assert state[..4] == [state[0], state[1], state[2], state[3]];
      assert digestRaw[..16] == digestRaw[..];
    }

    method Pad(bits: array<byte>)
      requires Valid() && bits != buffer && bits.Length == 8 && bits[..] == LittleEndian(8 * |message|, 8)
      modifies this`message, state, count, buffer
      ensures Valid() && message == old(message) + Padding(|old(message)|)
    {
      var index := Index();
      var padLen := PadLength(index);
      PaddingInTwoParts(message, PADDING[..padLen], bits[..]);
      Update(PADDING[..padLen]);
      Update(bits[..]);
    }

    /** Padding, length, digest; the context is overwritten with zeros. */
    method Final()
      requires Valid()
      modifies this`message, state, count, buffer, digestRaw
      ensures Shaped()
      ensures digestRaw[..] == Digest(macros, old(message))
      ensures Wiped()
    {
      var bits := EncodeCount();
      Pad(bits);
      PaddedIsWhole(old(message));
      EncodeState();
      Wipe();
    }

    ghost predicate Wiped()
      reads state, count, buffer
    {
      && Shaped()
      && (forall k :: 0 <= k < 4 ==> state[k] == 0)
      && (forall k :: 0 <= k < 64 ==> buffer[k] == 0)
      && count[0] == 0 && count[1] == 0
    }

    method Wipe()
      requires Shaped()
      modifies state, count, buffer
      ensures Wiped()
    {
      forall k | 0 <= k < 4 {
        state[k] := 0;
      }
      forall k | 0 <= k < 2 {
        count[k] := 0;
      }
      forall k | 0 <= k < 64 {
        buffer[k] := 0;
      }
    }

    /** `digestFile` without the file: the message arrives in pieces of any sizes. */
    method DigestPieces(pieces: seq<seq<byte>>) returns (digest: seq<byte>)
      requires Shaped()
      requires forall k :: 0 <= k < |pieces| ==> |pieces[k]| + 63 < WORD_LIMIT
      modifies this`message, state, count, buffer, digestRaw
      ensures Shaped()
      ensures digest == Digest(macros, Joined(pieces))
    {
      Init();
      var n := 0;
      while n < |pieces|
        invariant n <= |pieces| && Valid()
        invariant message == Joined(pieces[..n])
      {
        Update(pieces[n]);
        JoinedOneMore(pieces, n);
        n := n + 1;
      }
      assert pieces[..n] == pieces;
      Final();
      digest := digestRaw[..];
    }

    /** `digestString` and `digestMemory` */
    method DigestMemory(input: seq<byte>) returns (digest: seq<byte>)
      requires Shaped() && |input| + 63 < WORD_LIMIT
      modifies this`message, state, count, buffer, digestRaw
      ensures Shaped()
      ensures digest == Digest(macros, input)
    {
      Init();
      Update(input);
      assert [] + input == input;
      Final();
      digest := digestRaw[..];
    }
  }

  lemma TakeMore(m: seq<byte>, input: seq<byte>, i: nat)
    requires i + 64 <= |input|
    ensures (m + input[..i]) + input[i..i + 64] == m + input[..i + 64]
  {
  }

  function Joined(pieces: seq<seq<byte>>): seq<byte>
  {
    if pieces == [] then [] else Joined(pieces[..|pieces| - 1]) + pieces[|pieces| - 1]
  }

  lemma JoinedOneMore(pieces: seq<seq<byte>>, n: nat)
    requires n < |pieces|
    ensures Joined(pieces[..n + 1]) == Joined(pieces[..n]) + pieces[n]
  {
    assert pieces[..n + 1][..n] == pieces[..n];
  }
}
