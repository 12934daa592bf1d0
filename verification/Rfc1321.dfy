/** The MD5 message digest as sections 3.1 to 3.5 of RFC 1321 define it. */
module Rfc1321 {
  import opened Words
  import opened BlockStream

  datatype State = State(a: bv32, b: bv32, c: bv32, d: bv32)

  /** The four auxiliary functions of section 3.4. */
  function F(x: bv32, y: bv32, z: bv32): (r: bv32) { (x & y) | (!x & z) }
  function G(x: bv32, y: bv32, z: bv32): (r: bv32) { (x & z) | (y & !z) }
  function H(x: bv32, y: bv32, z: bv32): (r: bv32) { x ^ y ^ z }
  function I(x: bv32, y: bv32, z: bv32): (r: bv32) { y ^ (x | !z) }

  // The table of section 3.4: entry `i` is the integer part of 2^32 abs(sin(i + 1)).

  function Pick(j: nat, t0: uint32, t1: uint32, t2: uint32, t3: uint32): (t: uint32) {
    match j case 0 => t0 case 1 => t1 case 2 => t2 case _ => t3
  }

  function T1(j: nat): (t: uint32) {
    match j / 4
    case 0 => Pick(j % 4, 0xd76aa478, 0xe8c7b756, 0x242070db, 0xc1bdceee)
    case 1 => Pick(j % 4, 0xf57c0faf, 0x4787c62a, 0xa8304613, 0xfd469501)
    case 2 => Pick(j % 4, 0x698098d8, 0x8b44f7af, 0xffff5bb1, 0x895cd7be)
    case _ => Pick(j % 4, 0x6b901122, 0xfd987193, 0xa679438e, 0x49b40821)
  }

  function T2(j: nat): (t: uint32) {
    match j / 4
    case 0 => Pick(j % 4, 0xf61e2562, 0xc040b340, 0x265e5a51, 0xe9b6c7aa)
    case 1 => Pick(j % 4, 0xd62f105d, 0x02441453, 0xd8a1e681, 0xe7d3fbc8)
    case 2 => Pick(j % 4, 0x21e1cde6, 0xc33707d6, 0xf4d50d87, 0x455a14ed)
    case _ => Pick(j % 4, 0xa9e3e905, 0xfcefa3f8, 0x676f02d9, 0x8d2a4c8a)
  }

  function T3(j: nat): (t: uint32) {
    match j / 4
    case 0 => Pick(j % 4, 0xfffa3942, 0x8771f681, 0x6d9d6122, 0xfde5380c)
    case 1 => Pick(j % 4, 0xa4beea44, 0x4bdecfa9, 0xf6bb4b60, 0xbebfbc70)
    case 2 => Pick(j % 4, 0x289b7ec6, 0xeaa127fa, 0xd4ef3085, 0x04881d05)
    case _ => Pick(j % 4, 0xd9d4d039, 0xe6db99e5, 0x1fa27cf8, 0xc4ac5665)
  }

  function T4(j: nat): (t: uint32) {
    match j / 4
    case 0 => Pick(j % 4, 0xf4292244, 0x432aff97, 0xab9423a7, 0xfc93a039)
    case 1 => Pick(j % 4, 0x655b59c3, 0x8f0ccc92, 0xffeff47d, 0x85845dd1)
    case 2 => Pick(j % 4, 0x6fa87e4f, 0xfe2ce6e0, 0xa3014314, 0x4e0811a1)
    case _ => Pick(j % 4, 0xf7537e82, 0xbd3af235, 0x2ad7d2bb, 0xeb86d391)
  }

  function T(i: nat): (t: uint32)
    requires i < 64
  {
    match i / 16
    case 0 => T1(i % 16)
    case 1 => T2(i % 16)
    case 2 => T3(i % 16)
    case _ => T4(i % 16)
  }

  /** The rotation amount of step `i`. */
  function Shift(i: nat): (s: nat)
    requires i < 64
    ensures 0 < s < 32
  {
    match (i / 16, i % 4)
    case (0, 0) => 7 case (0, 1) => 12 case (0, 2) => 17 case (0, _) => 22
    case (1, 0) => 5 case (1, 1) => 9 case (1, 2) => 14 case (1, _) => 20
    case (2, 0) => 4 case (2, 1) => 11 case (2, 2) => 16 case (2, _) => 23
    case (_, 0) => 6 case (_, 1) => 10 case (_, 2) => 15 case (_, _) => 21
  }

  /** The message word of step `i`. */
  function Word(i: nat): (k: nat)
    requires i < 64
    ensures k < 16
  {
    match i / 16
    case 0 => i
    case 1 => (5 * i + 1) % 16
    case 2 => (3 * i + 5) % 16
    case _ => 7 * i % 16
  }

  // The entries of each round, as literals.

  lemma Row1()
    ensures Word(0) == 0 && Shift(0) == 7 && T(0) == 0xd76aa478
    ensures Word(1) == 1 && Shift(1) == 12 && T(1) == 0xe8c7b756
    ensures Word(2) == 2 && Shift(2) == 17 && T(2) == 0x242070db
    ensures Word(3) == 3 && Shift(3) == 22 && T(3) == 0xc1bdceee
    ensures Word(4) == 4 && Shift(4) == 7 && T(4) == 0xf57c0faf
    ensures Word(5) == 5 && Shift(5) == 12 && T(5) == 0x4787c62a
    ensures Word(6) == 6 && Shift(6) == 17 && T(6) == 0xa8304613
    ensures Word(7) == 7 && Shift(7) == 22 && T(7) == 0xfd469501
    ensures Word(8) == 8 && Shift(8) == 7 && T(8) == 0x698098d8
    ensures Word(9) == 9 && Shift(9) == 12 && T(9) == 0x8b44f7af
    ensures Word(10) == 10 && Shift(10) == 17 && T(10) == 0xffff5bb1
    ensures Word(11) == 11 && Shift(11) == 22 && T(11) == 0x895cd7be
    ensures Word(12) == 12 && Shift(12) == 7 && T(12) == 0x6b901122
    ensures Word(13) == 13 && Shift(13) == 12 && T(13) == 0xfd987193
    ensures Word(14) == 14 && Shift(14) == 17 && T(14) == 0xa679438e
    ensures Word(15) == 15 && Shift(15) == 22 && T(15) == 0x49b40821
  {
  }

  lemma Row2()
    ensures Word(16) == 1 && Shift(16) == 5 && T(16) == 0xf61e2562
    ensures Word(17) == 6 && Shift(17) == 9 && T(17) == 0xc040b340
    ensures Word(18) == 11 && Shift(18) == 14 && T(18) == 0x265e5a51
    ensures Word(19) == 0 && Shift(19) == 20 && T(19) == 0xe9b6c7aa
    ensures Word(20) == 5 && Shift(20) == 5 && T(20) == 0xd62f105d
    ensures Word(21) == 10 && Shift(21) == 9 && T(21) == 0x2441453
    ensures Word(22) == 15 && Shift(22) == 14 && T(22) == 0xd8a1e681
    ensures Word(23) == 4 && Shift(23) == 20 && T(23) == 0xe7d3fbc8
    ensures Word(24) == 9 && Shift(24) == 5 && T(24) == 0x21e1cde6
    ensures Word(25) == 14 && Shift(25) == 9 && T(25) == 0xc33707d6
    ensures Word(26) == 3 && Shift(26) == 14 && T(26) == 0xf4d50d87
    ensures Word(27) == 8 && Shift(27) == 20 && T(27) == 0x455a14ed
    ensures Word(28) == 13 && Shift(28) == 5 && T(28) == 0xa9e3e905
    ensures Word(29) == 2 && Shift(29) == 9 && T(29) == 0xfcefa3f8
    ensures Word(30) == 7 && Shift(30) == 14 && T(30) == 0x676f02d9
    ensures Word(31) == 12 && Shift(31) == 20 && T(31) == 0x8d2a4c8a
  {
  }

  lemma Row3()
    ensures Word(32) == 5 && Shift(32) == 4 && T(32) == 0xfffa3942
    ensures Word(33) == 8 && Shift(33) == 11 && T(33) == 0x8771f681
    ensures Word(34) == 11 && Shift(34) == 16 && T(34) == 0x6d9d6122
    ensures Word(35) == 14 && Shift(35) == 23 && T(35) == 0xfde5380c
    ensures Word(36) == 1 && Shift(36) == 4 && T(36) == 0xa4beea44
    ensures Word(37) == 4 && Shift(37) == 11 && T(37) == 0x4bdecfa9
    ensures Word(38) == 7 && Shift(38) == 16 && T(38) == 0xf6bb4b60
    ensures Word(39) == 10 && Shift(39) == 23 && T(39) == 0xbebfbc70
    ensures Word(40) == 13 && Shift(40) == 4 && T(40) == 0x289b7ec6
    ensures Word(41) == 0 && Shift(41) == 11 && T(41) == 0xeaa127fa
    ensures Word(42) == 3 && Shift(42) == 16 && T(42) == 0xd4ef3085
    ensures Word(43) == 6 && Shift(43) == 23 && T(43) == 0x4881d05
    ensures Word(44) == 9 && Shift(44) == 4 && T(44) == 0xd9d4d039
    ensures Word(45) == 12 && Shift(45) == 11 && T(45) == 0xe6db99e5
    ensures Word(46) == 15 && Shift(46) == 16 && T(46) == 0x1fa27cf8
    ensures Word(47) == 2 && Shift(47) == 23 && T(47) == 0xc4ac5665
  {
  }

  lemma Row4()
    ensures Word(48) == 0 && Shift(48) == 6 && T(48) == 0xf4292244
    ensures Word(49) == 7 && Shift(49) == 10 && T(49) == 0x432aff97
    ensures Word(50) == 14 && Shift(50) == 15 && T(50) == 0xab9423a7
    ensures Word(51) == 5 && Shift(51) == 21 && T(51) == 0xfc93a039
    ensures Word(52) == 12 && Shift(52) == 6 && T(52) == 0x655b59c3
    ensures Word(53) == 3 && Shift(53) == 10 && T(53) == 0x8f0ccc92
    ensures Word(54) == 10 && Shift(54) == 15 && T(54) == 0xffeff47d
    ensures Word(55) == 1 && Shift(55) == 21 && T(55) == 0x85845dd1
    ensures Word(56) == 8 && Shift(56) == 6 && T(56) == 0x6fa87e4f
    ensures Word(57) == 15 && Shift(57) == 10 && T(57) == 0xfe2ce6e0
    ensures Word(58) == 6 && Shift(58) == 15 && T(58) == 0xa3014314
    ensures Word(59) == 13 && Shift(59) == 21 && T(59) == 0x4e0811a1
    ensures Word(60) == 4 && Shift(60) == 6 && T(60) == 0xf7537e82
    ensures Word(61) == 11 && Shift(61) == 10 && T(61) == 0xbd3af235
    ensures Word(62) == 2 && Shift(62) == 15 && T(62) == 0x2ad7d2bb
    ensures Word(63) == 9 && Shift(63) == 21 && T(63) == 0xeb86d391
  {
  }

  function Mix(i: nat, b: bv32, c: bv32, d: bv32): (r: bv32)
    requires i < 64
  {
    match i / 16
    case 0 => F(b, c, d)
    case 1 => G(b, c, d)
    case 2 => H(b, c, d)
    case _ => I(b, c, d)
  }

  /** Addition modulo 2^32. */
  function Plus(x: bv32, y: bv32): (r: bv32) { x + y }

  function Total(a: bv32, f: bv32, x: bv32, t: bv32): (r: bv32) { a + f + x + t }

  lemma PlusCommutes(x: bv32, y: bv32)
    ensures Plus(x, y) == Plus(y, x)
  {
  }

  /** b + ((a + f + x + t) <<< s). */
  function NewWord(a: bv32, b: bv32, f: bv32, x: bv32, t: uint32, s: nat): (r: bv32)
    requires 0 < s < 32
  {
    Plus(b, Rotl(Total(a, f, x, Bits(t)), s))
  }

  /** One step; the registers are renamed so that the next step updates its `a`. */
  function Step(x: seq<bv32>, i: nat, s: State): (r: State)
    requires |x| == 16 && i < 64
  {
    State(s.d, NewWord(s.a, s.b, Mix(i, s.b, s.c, s.d), x[Word(i)], T(i), Shift(i)), s.b, s.c)
  }

  function Steps(x: seq<bv32>, n: nat, s: State): (r: State)
    requires |x| == 16 && n <= 64
  {
    if n == 0 then s else Step(x, n - 1, Steps(x, n - 1, s))
  }

  lemma StepsNext(x: seq<bv32>, n: nat, s: State)
    requires |x| == 16 && n < 64
    ensures Steps(x, n + 1, s) == Step(x, n, Steps(x, n, s))
  {
    hide Step;
  }

  lemma StepsNone(x: seq<bv32>, s: State)
    requires |x| == 16
    ensures Steps(x, 0, s) == s
  {
  }

  /** The addition that ends a block. */
  function Add(h: State, s: State): (r: State) {
    State(h.a + s.a, h.b + s.b, h.c + s.c, h.d + s.d)
  }

  function CompressWords(h: State, x: seq<bv32>): (r: State)
    requires |x| == 16
  {
    Add(h, Steps(x, 64, h))
  }

  /** The sixteen words of a block, low octet first. */
  function WordsOf(b: Block): (x: seq<bv32>)
    ensures |x| == 16
  {
    seq(16, k requires 0 <= k < 16 => Bits(LittleEndian(b[4 * k..4 * k + 4])))
  }

  function Compress(h: State, b: Block): (r: State) {
    CompressWords(h, WordsOf(b))
  }

  const Initial := State(0x67452301, 0xefcdab89, 0x98badcfe, 0x10325476)

  /** The length in bits, modulo 2^64, low octet first. */
  function LengthOctets(n: nat): (b: seq<byte>)
    ensures |b| == 8
  {
    var bits := 8 * n % TWO64;
    LeBytes(bits % TWO32) + LeBytes(bits / TWO32)
  }

  /** Sections 3.1 and 3.2: a one bit, zeros up to 56 octets modulo 64, the length. */
  function Padding(n: nat): (b: seq<byte>)
    ensures (n + |b|) % 64 == 0
  {
    PadFills(n);
    hide LengthOctets;
    [0x80] + Zeros((55 - n) % 64) + LengthOctets(n)
  }

  /** The octets that the counter words make are the length octets. */
  lemma LengthOf(lo: uint32, hi: uint32, n: nat)
    requires Counts(lo, hi, n)
    ensures LengthOctets(n) == LeBytes(lo) + LeBytes(hi)
  {
    hide LeBytes;
    ModShift(lo, hi);
    assert (lo + TWO32 * hi) / TWO32 == hi;
  }

  /** The padding as an implementation cuts it from a table of 64 octets. */
  lemma PaddingIs(m: seq<byte>, padLen: nat)
    requires var index := |m| % 64; padLen == if index < 56 then 56 - index else 120 - index
    ensures 0 < padLen <= 64
    ensures m + ([0x80] + Zeros(63))[..padLen] + LengthOctets(|m|) == m + Padding(|m|)
  {
    hide LengthOctets;
    assert (55 - |m|) % 64 == padLen - 1;
    assert ([0x80] + Zeros(63))[..padLen] == [0x80] + Zeros(padLen - 1);
  }

  function StateBytes(s: State): (b: seq<byte>)
    ensures |b| == 16
  {
    hide LeBytes, Number;
    LeBytes(Number(s.a)) + LeBytes(Number(s.b)) + LeBytes(Number(s.c)) + LeBytes(Number(s.d))
  }

  /** The digest of a message. */
  ghost function Digest(m: seq<byte>): (d: seq<byte>)
    ensures |d| == 16
  {
    StateBytes(Fold(Compress, Initial, m + Padding(|m|)))
  }

  /** The state that absorbed the padded message holds the digest. */
  lemma DigestFrom(m: seq<byte>, s: State, tail: seq<byte>)
    requires Absorbed(Compress, Initial, m + Padding(|m|), s, tail)
    ensures StateBytes(s) == Digest(m)
  {
    hide Compress, Fold, StateBytes, Padding;
    var p := m + Padding(|m|);
    assert p[..Whole(p)] == p;
  }
}
