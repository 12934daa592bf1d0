/** The SHA-1 message digest as sections 4 to 6.1 of RFC 3174 define it. */
module Rfc3174 {
  import opened Words
  import opened BlockStream

  datatype State = State(a: bv32, b: bv32, c: bv32, d: bv32, e: bv32)

  /** The logical functions of section 5. */
  function Ch(b: bv32, c: bv32, d: bv32): (r: bv32) { (b & c) | (!b & d) }
  function Parity(b: bv32, c: bv32, d: bv32): (r: bv32) { b ^ c ^ d }
  function Maj(b: bv32, c: bv32, d: bv32): (r: bv32) { (b & c) | (b & d) | (c & d) }

  function Mix(t: nat, b: bv32, c: bv32, d: bv32): (r: bv32) {
    match t / 20
    case 0 => Ch(b, c, d)
    case 1 => Parity(b, c, d)
    case 2 => Maj(b, c, d)
    case _ => Parity(b, c, d)
  }

  function K(t: nat): (k: bv32) {
    match t / 20
    case 0 => 0x5A827999
    case 1 => 0x6ED9EBA1
    case 2 => 0x8F1BBCDC
    case _ => 0xCA62C1D6
  }

  /** S^1(p XOR q XOR r XOR s). */
  function Feedback(p: bv32, q: bv32, r: bv32, s: bv32): (w: bv32) {
    Rotl(p ^ q ^ r ^ s, 1)
  }

  /** The 80-word schedule of section 6.1. */
  function W(x: seq<bv32>, t: nat): (w: bv32)
    requires |x| == 16
  {
    if t < 16 then x[t]
    else Feedback(W(x, t - 3), W(x, t - 8), W(x, t - 14), W(x, t - 16))
  }

  /** TEMP = S^5(A) + f(t;B,C,D) + E + W(t) + K(t). */
  function Temp(a: bv32, f: bv32, e: bv32, w: bv32, k: bv32): (r: bv32) {
    Rotl(a, 5) + f + e + w + k
  }

  function Step(x: seq<bv32>, t: nat, s: State): (r: State)
    requires |x| == 16
  {
    State(Temp(s.a, Mix(t, s.b, s.c, s.d), s.e, W(x, t), K(t)), s.a, Rotl(s.b, 30), s.c, s.d)
  }

  function Steps(x: seq<bv32>, n: nat, s: State): (r: State)
    requires |x| == 16
  {
    if n == 0 then s else Step(x, n - 1, Steps(x, n - 1, s))
  }

  function Add(h: State, s: State): (r: State) {
    State(h.a + s.a, h.b + s.b, h.c + s.c, h.d + s.d, h.e + s.e)
  }

  /** An octet and a word made of four of them, as bits. */
  function Octet(b: byte): (x: bv8) { b as bv8 }

  function Spell(p: bv8, q: bv8, r: bv8, s: bv8): (w: bv32) {
    (p as bv32 << 24) | (q as bv32 << 16) | (r as bv32 << 8) | s as bv32
  }

  /** The sixteen words of a block, high octet first. */
  function WordsOf(b: Block): (x: seq<bv32>)
    ensures |x| == 16
  {
    seq(16, k requires 0 <= k < 16 =>
      Spell(Octet(b[4 * k]), Octet(b[4 * k + 1]), Octet(b[4 * k + 2]), Octet(b[4 * k + 3])))
  }

  function Compress(h: State, b: Block): (r: State) {
    Add(h, Steps(WordsOf(b), 80, h))
  }

  const Initial := State(0x67452301, 0xEFCDAB89, 0x98BADCFE, 0x10325476, 0xC3D2E1F0)

  /** The length in bits, modulo 2^64, high octet first. */
  function LengthOctets(n: nat): (b: seq<byte>)
    ensures |b| == 8
  {
    var bits := 8 * n % TWO64;
    BeBytes(bits / TWO32) + BeBytes(bits % TWO32)
  }

  /** Section 4: a one bit, zeros up to 56 octets modulo 64, the length. */
  function Padding(n: nat): (b: seq<byte>)
    ensures (n + |b|) % 64 == 0
  {
    PadFills(n);
    hide LengthOctets;
    [0x80] + Zeros((55 - n) % 64) + LengthOctets(n)
  }

  function StateBytes(s: State): (b: seq<byte>)
    ensures |b| == 20
  {
    hide BeBytes, Number;
    BeBytes(Number(s.a)) + BeBytes(Number(s.b)) + BeBytes(Number(s.c)) + BeBytes(Number(s.d))
    + BeBytes(Number(s.e))
  }

  ghost function Digest(m: seq<byte>): (d: seq<byte>)
    ensures |d| == 20
  {
    StateBytes(Fold(Compress, Initial, m + Padding(|m|)))
  }

  lemma StepsNext(x: seq<bv32>, n: nat, s: State)
    requires |x| == 16
    ensures Steps(x, n + 1, s) == Step(x, n, Steps(x, n, s))
  {
    hide Step;
  }

  lemma StepsNone(x: seq<bv32>, s: State)
    requires |x| == 16
    ensures Steps(x, 0, s) == s
  {
  }

  lemma LengthOf(lo: uint32, hi: uint32, n: nat)
    requires Counts(lo, hi, n)
    ensures LengthOctets(n) == BeBytes(hi) + BeBytes(lo)
  {
    hide BeBytes;
    ModShift(lo, hi);
    assert (lo + TWO32 * hi) / TWO32 == hi;
  }

  lemma DigestFrom(m: seq<byte>, s: State, tail: seq<byte>)
    requires Absorbed(Compress, Initial, m + Padding(|m|), s, tail)
    ensures StateBytes(s) == Digest(m)
  {
    hide Compress, Fold, StateBytes, Padding;
    var p := m + Padding(|m|);
    assert p[..Whole(p)] == p;
  }
}
