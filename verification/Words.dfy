/** Octets and 32-bit words, and the two byte orders. */
module Words {
  type byte = x: int | 0 <= x < 256
  type uint32 = x: int | 0 <= x < 0x1_0000_0000

  const TWO32 := 0x1_0000_0000
  const TWO64 := 0x1_0000_0000_0000_0000

  /** Four octets as a word, the low octet first.  The source adds the octets up
      with disjoint shifts and `|`. */
  function LittleEndian(b: seq<byte>): (w: uint32)
    requires |b| == 4
  {
    b[0] as int + 0x100 * b[1] as int + 0x1_0000 * b[2] as int + 0x100_0000 * b[3] as int
  }

  function BigEndian(b: seq<byte>): (w: uint32)
    requires |b| == 4
  {
    0x100_0000 * b[0] as int + 0x1_0000 * b[1] as int + 0x100 * b[2] as int + b[3] as int
  }

  function LeBytes(w: uint32): (b: seq<byte>)
    ensures |b| == 4
  {
    [w % 0x100, w / 0x100 % 0x100, w / 0x1_0000 % 0x100, w / 0x100_0000]
  }

  function BeBytes(w: uint32): (b: seq<byte>)
    ensures |b| == 4
  {
    [w / 0x100_0000, w / 0x1_0000 % 0x100, w / 0x100 % 0x100, w % 0x100]
  }

  /** A machine word as a number. */
  function Number(x: bv32): (w: uint32) { x as int }

  /** A number as a machine word. */
  function Bits(w: uint32): (x: bv32) { w as bv32 }

  lemma Digit(a: int, b: int, c: int, d: int)
    requires 0 <= a < 0x100 && 0 <= c < 0x100 && a + 0x100 * b == c + 0x100 * d
    ensures a == c && b == d
  {
  }

  /** The octets of a word are determined by the word, in either order. */
  lemma WordsDetermineOctets(x: seq<byte>, y: seq<byte>)
    requires |x| == |y| == 4
    ensures LittleEndian(x) == LittleEndian(y) ==> x == y
    ensures BigEndian(x) == BigEndian(y) ==> x == y
  {
    if LittleEndian(x) == LittleEndian(y) {
      Digit(x[0], x[1] + 0x100 * (x[2] as int + 0x100 * x[3] as int),
            y[0], y[1] + 0x100 * (y[2] as int + 0x100 * y[3] as int));
      Digit(x[1], x[2] as int + 0x100 * x[3] as int, y[1], y[2] as int + 0x100 * y[3] as int);
      Digit(x[2], x[3], y[2], y[3]);
    }
    if BigEndian(x) == BigEndian(y) {
      Digit(x[3], x[2] + 0x100 * (x[1] as int + 0x100 * x[0] as int),
            y[3], y[2] + 0x100 * (y[1] as int + 0x100 * y[0] as int));
      Digit(x[2], x[1] as int + 0x100 * x[0] as int, y[2], y[1] as int + 0x100 * y[0] as int);
      Digit(x[1], x[0], y[1], y[0]);
    }
  }

  lemma SwappedOrder(w: uint32)
    ensures LittleEndian(BeBytes(w)) == BigEndian(LeBytes(w))
  {
  }

  lemma WordRoundTrips(w: uint32)
    ensures LittleEndian(LeBytes(w)) == w && BigEndian(BeBytes(w)) == w
  {
    var w1 := w / 0x100;
    var w2 := w1 / 0x100;
    assert w / 0x1_0000 == w2 && w / 0x100_0000 == w2 / 0x100;
    assert w == w % 0x100 + 0x100 * (w1 % 0x100 + 0x100 * (w2 % 0x100 + 0x100 * (w2 / 0x100)));
  }

  function Rotl(x: bv32, n: nat): (y: bv32)
    requires 0 < n < 32
  {
    (x << n) | (x >> (32 - n))
  }

  function Zeros(n: nat): (z: seq<byte>)
    ensures |z| == n && forall i :: 0 <= i < n ==> z[i] == 0
  {
    seq(n, _ => 0)
  }

  lemma SliceKept(s: seq<byte>, t: seq<byte>, lo: nat, hi: nat, n: nat)
    requires lo <= hi <= n <= |s| && n <= |t| && s[..n] == t[..n]
    ensures s[lo..hi] == t[lo..hi]
  {
    assert s[lo..hi] == s[..n][lo..hi] && t[lo..hi] == t[..n][lo..hi];
  }

  function HexDigit(d: int): (c: char)
    requires 0 <= d < 16
  {
    if d < 10 then '0' + d as char else 'a' + (d - 10) as char
  }

  /** An upper-case hex digit. */
  function UpperHex(d: int): (c: byte)
    requires 0 <= d < 16
  {
    if d < 10 then 48 + d else 55 + d
  }

  /** Two lower-case hex digits per octet. */
  function Hex(b: seq<byte>): (s: string)
    ensures |s| == 2 * |b|
  {
    if b == [] then ""
    else
      var n := |b| - 1;
      Hex(b[..n]) + [HexDigit(b[n] / 16), HexDigit(b[n] % 16)]
  }

  /** A string as the octets it is stored in. */
  function Octets(s: string): (b: seq<byte>)
    ensures |b| == |s|
  {
    seq(|s|, i requires 0 <= i < |s| => s[i] as int % 0x100)
  }

  /** Chunks taken together. */
  function Concat(parts: seq<seq<byte>>): (m: seq<byte>) {
    if parts == [] then [] else Concat(parts[..|parts| - 1]) + parts[|parts| - 1]
  }

  /** `memcpy` into an octet array. */
  method Copy(dst: array<byte>, at: nat, src: seq<byte>)
    requires at + |src| <= dst.Length
    modifies dst
    ensures dst[..] == old(dst[..at]) + src + old(dst[at + |src|..])
  {
    for i := 0 to |src|
      invariant forall k :: 0 <= k < i ==> dst[at + k] == src[k]
      invariant forall k :: 0 <= k < dst.Length && !(at <= k < at + i) ==> dst[k] == old(dst[k])
    {
      dst[at + i] := src[i];
    }
  }

  /** One octet, zeros and an eight-octet length fill whole blocks. */
  lemma PadFills(n: nat)
    ensures (n + (1 + (55 - n) % 64 + 8)) % 64 == 0
  {
    var k := (55 - n) / 64;
    assert n + (1 + (55 - n) % 64 + 8) == 64 * (1 - k);
    MultipleOf64(1 - k);
  }

  lemma MultipleOf64(k: int)
    ensures 64 * k % 64 == 0
  {
  }

  // ---------------------------------------------------------------------
  // The two-word bit counter of the digests.

  /** `lo + 2^32 hi` is the number of bits in `n` octets, modulo 2^64. */
  ghost predicate Counts(lo: uint32, hi: uint32, n: nat) {
    lo + TWO32 * hi == 8 * n % TWO64
  }

  /** The position in a 64-octet buffer can be read off the low word. */
  lemma CountIndex(lo: uint32, hi: uint32, n: nat)
    requires Counts(lo, hi, n)
    ensures lo / 8 % 64 == n % 64
  {
    var q := 8 * n / TWO64;
    assert 8 * n == lo + TWO32 * hi + TWO64 * q;
    assert lo == 8 * (n - 0x2000_0000 * hi - 0x2000_0000_0000_0000 * q);
    assert lo / 8 == n - 64 * (0x80_0000 * hi + 0x80_0000_0000_0000 * q);
    AddMultiple(n, 0x80_0000 * hi + 0x80_0000_0000_0000 * q);
  }

  lemma AddMultiple(n: int, k: int)
    ensures (n - 64 * k) % 64 == n % 64
  {
  }

  /** The low word after `len` more octets. */
  function LowAfter(lo: uint32, len: nat): (r: uint32) {
    (lo + len * 8 % TWO32) % TWO32
  }

  /** The high word, with the carry out of the low one and the bits shifted out of `len`. */
  function HighAfter(lo: uint32, hi: uint32, len: nat): (r: uint32) {
    (hi + (lo + len * 8 % TWO32) / TWO32 + len / 0x2000_0000) % TWO32
  }

  lemma CountAdds(lo: uint32, hi: uint32, n: nat, len: nat)
    requires Counts(lo, hi, n)
    ensures Counts(LowAfter(lo, len), HighAfter(lo, hi, len), n + len)
  {
    var low, high := len * 8 % TWO32, len / 0x2000_0000;
    assert 8 * len == low + TWO32 * high;
    var lo', c := (lo + low) % TWO32, (lo + low) / TWO32;
    assert lo + low == lo' + TWO32 * c;
    var sum := hi + c + high;
    var hi', c' := sum % TWO32, sum / TWO32;
    assert sum == hi' + TWO32 * c';
    var q := 8 * n / TWO64;
    assert 8 * n == lo + TWO32 * hi + TWO64 * q;
    CountSum(lo, hi, low, high, lo', hi', c, c', q, n, len);
    ModOf(lo' + TWO32 * hi', q + c');
  }

  lemma CountSum(lo: int, hi: int, low: int, high: int, lo': int, hi': int, c: int, c': int, q: int,
                 n: int, len: int)
    requires 8 * len == low + TWO32 * high && lo + low == lo' + TWO32 * c
    requires hi + c + high == hi' + TWO32 * c' && 8 * n == lo + TWO32 * hi + TWO64 * q
    ensures 8 * (n + len) == lo' + TWO32 * hi' + TWO64 * (q + c')
  {
  }

  /** Comparing the new low word with either summand detects the carry. */
  lemma CarryTest(lo: uint32, low: uint32)
    ensures (lo + low) % TWO32 < low <==> lo + low >= TWO32
    ensures (lo + low) % TWO32 < lo <==> lo + low >= TWO32
    ensures (lo + low) / TWO32 == if lo + low >= TWO32 then 1 else 0
  {
  }

  lemma AddTwice(x: nat, y: nat)
    ensures (x % TWO32 + y) % TWO32 == (x + y) % TWO32
  {
    var q := x / TWO32;
    assert x + y == x % TWO32 + y + TWO32 * q;
    ModShift(x % TWO32 + y, q);
  }

  lemma ModShift(r: nat, q: nat)
    ensures (r + TWO32 * q) % TWO32 == r % TWO32
  {
  }

  lemma ModOf(r: nat, q: nat)
    requires r < TWO64
    ensures (r + TWO64 * q) % TWO64 == r
  {
  }
}

/** A digest over 64-octet blocks, with any compression function. */
module BlockStream {
  import opened Words

  type Block = b: seq<byte> | |b| == 64 witness Zeros(64)

  /** The chaining value after the whole blocks `m`. */
  ghost function Fold<S>(f: (S, Block) -> S, h: S, m: seq<byte>): (s: S)
    requires |m| % 64 == 0
  {
    if m == [] then h else f(Fold(f, h, m[..|m| - 64]), m[|m| - 64..])
  }

  ghost function Whole(m: seq<byte>): (n: nat)
    ensures n <= |m| && n % 64 == 0 && |m| - n == |m| % 64
  {
    |m| - |m| % 64
  }

  /** The chaining value and the buffered octets after any message. */
  ghost predicate Absorbed<S>(f: (S, Block) -> S, h: S, m: seq<byte>, s: S, tail: seq<byte>) {
    s == Fold(f, h, m[..Whole(m)]) && tail == m[Whole(m)..]
  }

  lemma AbsorbedTail<S>(f: (S, Block) -> S, h: S, m: seq<byte>, s: S, tail: seq<byte>)
    requires Absorbed(f, h, m, s, tail)
    ensures |tail| == |m| % 64
  {
  }

  lemma AbsorbShort<S>(f: (S, Block) -> S, h: S, m: seq<byte>, s: S, tail: seq<byte>, x: seq<byte>)
    requires Absorbed(f, h, m, s, tail) && |tail| + |x| < 64
    ensures Absorbed(f, h, m + x, s, tail + x)
  {
    assert Whole(m + x) == Whole(m);
    assert (m + x)[..Whole(m)] == m[..Whole(m)];
  }

  /** Filling the buffer up to a block compresses it. */
  lemma AbsorbFill<S>(f: (S, Block) -> S, h: S, m: seq<byte>, s: S, tail: seq<byte>, x: seq<byte>)
    requires Absorbed(f, h, m, s, tail) && |tail| + |x| == 64
    ensures Absorbed(f, h, m + x, f(s, tail + x), [])
  {
    var w := Whole(m);
    assert Whole(m + x) == |m + x| == w + 64;
    assert (m + x)[..w + 64] == m + x == m[..w] + (tail + x);
    FoldSnoc(f, h, m[..w], tail + x);
  }

  lemma FoldSnoc<S>(f: (S, Block) -> S, h: S, m: seq<byte>, b: Block)
    requires |m| % 64 == 0
    ensures Fold(f, h, m + b) == f(Fold(f, h, m), b)
  {
    assert (m + b)[..|m|] == m && (m + b)[|m|..] == b;
  }
}
