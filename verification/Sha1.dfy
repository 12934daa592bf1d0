/** The `SHA1_CTX` functions of the bundled HTTP server. */
module Sha1 {
  import opened BitOps
  import opened Words
  import opened BlockStream
  import opened Rfc3174

  // ---------------------------------------------------------------------
  // Bit identities.

  lemma SelectIdentity(w: bv32, x: bv32, y: bv32)
    ensures (w & (x ^ y)) ^ y == (w & x) | (!w & y)
  {
  }

  lemma MajorityIdentity(w: bv32, x: bv32, y: bv32)
    ensures ((w | x) & y) | (w & x) == (w & x) | (w & y) | (x & y)
  {
  }

  lemma SwapIdentity(p: bv32, q: bv32, r: bv32, s: bv32)
    requires p <= 0xFF && q <= 0xFF && r <= 0xFF && s <= 0xFF
    ensures var l := (s << 24) | (r << 16) | (q << 8) | p;
            (((l << 24) | (l >> 8)) & 0xFF00FF00) | (((l << 8) | (l >> 24)) & 0x00FF00FF)
            == (p << 24) | (q << 16) | (r << 8) | s
  {
  }

  // ---------------------------------------------------------------------
  // The macros.

  function Select(w: bv32, x: bv32, y: bv32): (r: bv32) { (w & (x ^ y)) ^ y }
  function Majority(w: bv32, x: bv32, y: bv32): (r: bv32) { ((w | x) & y) | (w & x) }

  /** The mixing expression of `R0` to `R4` at step `t`. */
  function Blend(t: nat, w: bv32, x: bv32, y: bv32): (r: bv32) {
    if t < 20 then Select(w, x, y)
    else if t < 40 then Parity(w, x, y)
    else if t < 60 then Majority(w, x, y)
    else Parity(w, x, y)
  }

  function Constant(t: nat): (k: bv32) {
    if t < 20 then 0x5A827999
    else if t < 40 then 0x6ED9EBA1
    else if t < 60 then 0x8F1BBCDC
    else 0xCA62C1D6
  }

  /** `z += (...) + blk + K + rol(v, 5)`. */
  function Bump(v: bv32, f: bv32, z: bv32, blk: bv32, k: bv32): (r: bv32) {
    z + (f + blk + k + Rotl(v, 5))
  }

  lemma BumpIsTemp(v: bv32, f: bv32, z: bv32, blk: bv32, k: bv32)
    ensures Bump(v, f, z, blk, k) == Temp(v, f, z, blk, k)
  {
    hide Rotl;
    FiveSum(Rotl(v, 5), f, z, blk, k);
  }

  lemma FiveSum(a: bv32, f: bv32, z: bv32, w: bv32, k: bv32)
    ensures z + (f + w + k + a) == a + f + z + w + k
  {
  }

  lemma SelectIsCh(w: bv32, x: bv32, y: bv32)
    ensures Select(w, x, y) == Ch(w, x, y)
  {
    SelectIdentity(w, x, y);
  }

  lemma MajorityIsMaj(w: bv32, x: bv32, y: bv32)
    ensures Majority(w, x, y) == Maj(w, x, y)
  {
    MajorityIdentity(w, x, y);
  }

  lemma BlendIsMix(t: nat, w: bv32, x: bv32, y: bv32)
    requires t < 80
    ensures Blend(t, w, x, y) == Mix(t, w, x, y)
  {
    hide Select, Majority, Ch, Maj, Parity;
    SelectIsCh(w, x, y);
    MajorityIsMaj(w, x, y);
  }

  lemma ConstantIsK(t: nat)
    requires t < 80
    ensures Constant(t) == K(t)
  {
  }

  // ---------------------------------------------------------------------
  // The schedule in sixteen words.

  /** A word as the machine reads it from four octets. */
  function Native(big: bool, p: bv8, q: bv8, r: bv8, s: bv8): (w: bv32) {
    if big then Spell(p, q, r, s) else Spell(s, r, q, p)
  }

  /** `blk0` on one word: the octets swapped on a little-endian machine. */
  function Swapped(big: bool, l: bv32): (w: bv32) {
    if big then l else (Rotl(l, 24) & 0xFF00FF00) | (Rotl(l, 8) & 0x00FF00FF)
  }

  lemma SwappedNative(big: bool, p: bv8, q: bv8, r: bv8, s: bv8)
    ensures Swapped(big, Native(big, p, q, r, s)) == Spell(p, q, r, s)
  {
    SwapIdentity(p as bv32, q as bv32, r as bv32, s as bv32);
  }

  /** The sixteen words of a block as the machine reads them. */
  function NativeWords(big: bool, b: Block): (x: seq<bv32>)
    ensures |x| == 16
  {
    seq(16, k requires 0 <= k < 16 =>
      Native(big, Octet(b[4 * k]), Octet(b[4 * k + 1]), Octet(b[4 * k + 2]), Octet(b[4 * k + 3])))
  }

  lemma SwappedWords(big: bool, b: Block, k: nat)
    requires k < 16
    ensures Swapped(big, NativeWords(big, b)[k]) == WordsOf(b)[k]
  {
    hide Swapped, Native, Spell, Octet;
    SwappedNative(big, Octet(b[4 * k]), Octet(b[4 * k + 1]), Octet(b[4 * k + 2]), Octet(b[4 * k + 3]));
  }

  /** Before step `t` the sixteen words hold the last sixteen entries of the schedule, or,
      in the first sixteen steps, the entries made so far and then the block as loaded. */
  ghost predicate Rolling(big: bool, b: Block, l: seq<bv32>, t: nat) {
    && |l| == 16
    && (forall i :: 0 <= i < t && t <= i + 16 ==> l[i % 16] == W(WordsOf(b), i))
    && (forall i :: t <= i < 16 ==> l[i] == NativeWords(big, b)[i])
  }

  lemma Apart16(i: nat, t: nat)
    requires i < t < i + 16
    ensures i % 16 != t % 16
  {
    var q, r := i / 16, t / 16;
    assert i == 16 * q + i % 16 && t == 16 * r + t % 16;
  }

  lemma Back16(t: nat, k: nat)
    requires 16 <= t && k <= 16
    ensures (t - k) % 16 == (t + 16 - k) % 16
  {
  }

  /** What `blk0` or `blk` computes at step `t`. */
  function Blk(big: bool, l: seq<bv32>, t: nat): (w: bv32)
    requires |l| == 16
  {
    if t < 16 then Swapped(big, l[t])
    else Feedback(l[(t + 13) % 16], l[(t + 8) % 16], l[(t + 2) % 16], l[t % 16])
  }

  /** It is the next entry of the schedule of RFC 3174. */
  lemma BlkIsW(big: bool, b: Block, l: seq<bv32>, t: nat)
    requires Rolling(big, b, l, t)
    ensures Blk(big, l, t) == W(WordsOf(b), t)
  {
    hide Swapped, WordsOf, NativeWords, Feedback;
    var x := WordsOf(b);
    if t < 16 {
      SwappedWords(big, b, t);
    } else {
      Back16(t, 3);
      Back16(t, 8);
      Back16(t, 14);
      Back16(t, 16);
      assert l[(t - 3) % 16] == W(x, t - 3) && l[(t - 8) % 16] == W(x, t - 8);
      assert l[(t - 14) % 16] == W(x, t - 14) && l[(t - 16) % 16] == W(x, t - 16);
    }
  }

  /** Writing it over the oldest entry rolls the words on. */
  lemma RollsOn(big: bool, b: Block, l: seq<bv32>, t: nat)
    requires Rolling(big, b, l, t)
    ensures Rolling(big, b, l[t % 16 := W(WordsOf(b), t)], t + 1)
  {
    hide WordsOf, NativeWords, W;
    var m := l[t % 16 := W(WordsOf(b), t)];
    forall i | 0 <= i < t + 1 && t + 1 <= i + 16 ensures m[i % 16] == W(WordsOf(b), i) {
      if i < t { Apart16(i, t); }
    }
  }

  /** One macro `R0` to `R4`: the new `z` and `w`; the schedule is updated in place. */
  method Macro(big: bool, ghost b: Block, block: array<bv32>, t: nat, v: bv32, w: bv32, x: bv32, y: bv32, z: bv32)
    returns (z': bv32, w': bv32)
    requires t < 80 && block.Length == 16 && Rolling(big, b, block[..], t)
    modifies block
    ensures Rolling(big, b, block[..], t + 1)
    ensures z' == Temp(v, Mix(t, w, x, y), z, W(WordsOf(b), t), K(t)) && w' == Rotl(w, 30)
  {
    hide Rolling, Blk, Blend, Mix, Bump, Temp, W, K, Constant, Rotl, WordsOf;
    BlkIsW(big, b, block[..], t);
    RollsOn(big, b, block[..], t);
    var blk := Blk(big, block[..], t);
    block[t % 16] := blk;
    BlendIsMix(t, w, x, y);
    ConstantIsK(t);
    BumpIsTemp(v, Mix(t, w, x, y), z, blk, K(t));
    z' := Bump(v, Blend(t, w, x, y), z, blk, Constant(t));
    w' := Rotl(w, 30);
  }

  lemma MacroIsStep(x: seq<bv32>, t: nat, h: State, a: bv32, b: bv32, c: bv32, d: bv32, e: bv32)
    requires |x| == 16 && State(a, b, c, d, e) == Steps(x, t, h)
    ensures Steps(x, t + 1, h) == State(Temp(a, Mix(t, b, c, d), e, W(x, t), K(t)), a, Rotl(b, 30), c, d)
  {
    hide Temp, Mix, W, K, Rotl, Steps;
    StepsNext(x, t, h);
  }

  /** `SHA1Transform`: the eighty macros in order, five at a time because the names of the
      registers rotate with period five. */
  method Transform(big: bool, h: State, buffer: Block) returns (r: State)
    ensures r == Compress(h, buffer)
  {
    hide Temp, Mix, W, K, Rotl, Steps, Rolling, WordsOf, NativeWords, Add;
    var block := new bv32[16](i requires 0 <= i < 16 => NativeWords(big, buffer)[i]);
    assert block[..] == NativeWords(big, buffer);
    RollingStart(big, buffer);
    ghost var x := WordsOf(buffer);
    var a, b, c, d, e := h.a, h.b, h.c, h.d, h.e;
    StepsNone(x, h);
    for g := 0 to 16
      invariant Rolling(big, buffer, block[..], 5 * g)
      invariant State(a, b, c, d, e) == Steps(x, 5 * g, h)
    {
      var t := 5 * g;
      MacroIsStep(x, t, h, a, b, c, d, e);
      e, b := Macro(big, buffer, block, t, a, b, c, d, e);
      MacroIsStep(x, t + 1, h, e, a, b, c, d);
      d, a := Macro(big, buffer, block, t + 1, e, a, b, c, d);
      MacroIsStep(x, t + 2, h, d, e, a, b, c);
      c, e := Macro(big, buffer, block, t + 2, d, e, a, b, c);
      MacroIsStep(x, t + 3, h, c, d, e, a, b);
      b, d := Macro(big, buffer, block, t + 3, c, d, e, a, b);
      MacroIsStep(x, t + 4, h, b, c, d, e, a);
      a, c := Macro(big, buffer, block, t + 4, b, c, d, e, a);
    }
    r := Add(h, State(a, b, c, d, e));
  }

  lemma RollingStart(big: bool, b: Block)
    ensures Rolling(big, b, NativeWords(big, b), 0)
  {
  }

  // ---------------------------------------------------------------------

  class Context {
    const bigEndian: bool
    var state: State
    var count0: uint32
    var count1: uint32
    const buffer: array<byte>
    ghost var message: seq<byte>     // the octets given so far

    ghost predicate Valid()
      reads this, buffer
    {
      && buffer.Length == 64
      && Counts(count0, count1, |message|)
      && Absorbed(Compress, Initial, message, state, buffer[..|message| % 64])
    }

    /** `SHA1Init`. */
    constructor (bigEndian: bool)
      ensures Valid() && message == [] && fresh(buffer)
    {
      this.bigEndian := bigEndian;
      state := State(0x67452301, 0xEFCDAB89, 0x98BADCFE, 0x10325476, 0xC3D2E1F0);
      count0, count1 := 0, 0;
      buffer := new byte[64](_ => 0);
      message := [];
      new;
      assert message[..0] == [] && buffer[..0] == [];
    }

    /** The two counters after `len` more octets. */
    method Tick(len: nat)
      modifies this`count0, this`count1
      ensures count0 == LowAfter(old(count0), len)
      ensures count1 == HighAfter(old(count0), old(count1), len)
    {
      var j := count0;
      CarryTest(j, len * 8 % TWO32);
      AddTwice(count1 + 1, len / 0x2000_0000);
      count0 := (count0 + len * 8 % TWO32) % TWO32;
      if count0 < j { count1 := (count1 + 1) % TWO32; }
      count1 := (count1 + len / 0x2000_0000) % TWO32;
    }

    method Fill(j: nat, part: seq<byte>, ghost m: seq<byte>)
      requires buffer.Length == 64 && j + |part| == 64
      requires Absorbed(Compress, Initial, m, state, buffer[..j])
      modifies this`state, buffer
      ensures Absorbed(Compress, Initial, m + part, state, [])
    {
      hide Compress, Absorbed;
      AbsorbFill(Compress, Initial, m, state, buffer[..j], part);
      Copy(buffer, j, part);
      assert buffer[..] == old(buffer[..j]) + part;
      state := Transform(bigEndian, state, buffer[..]);
    }

    method Keep(j: nat, rest: seq<byte>, ghost m: seq<byte>)
      requires buffer.Length == 64 && j + |rest| < 64
      requires Absorbed(Compress, Initial, m, state, buffer[..j])
      modifies buffer
      ensures Absorbed(Compress, Initial, m + rest, state, buffer[..|m + rest| % 64])
    {
      hide Compress, Absorbed;
      AbsorbShort(Compress, Initial, m, state, buffer[..j], rest);
      AbsorbedTail(Compress, Initial, m + rest, state, buffer[..j] + rest);
      Copy(buffer, j, rest);
      assert buffer[..j + |rest|] == old(buffer[..j]) + rest;
    }

    method TransformBlocks(data: seq<byte>, first: nat, ghost m: seq<byte>) returns (i: nat)
      requires first <= |data|
      requires Absorbed(Compress, Initial, m + data[..first], state, [])
      modifies this`state
      ensures first <= i <= |data| < i + 64
      ensures Absorbed(Compress, Initial, m + data[..i], state, [])
    {
      hide Compress, Absorbed;
      i := first;
      while i + 63 < |data|
        invariant first <= i <= |data|
        invariant Absorbed(Compress, Initial, m + data[..i], state, [])
      {
        var block := data[i..i + 64];
        AbsorbFill(Compress, Initial, m + data[..i], state, [], block);
        assert [] + block == block;
        assert m + data[..i] + block == m + data[..i + 64];
        state := Transform(bigEndian, state, block);
        i := i + 64;
      }
    }

    method Absorb(index: nat, data: seq<byte>, ghost m: seq<byte>)
      requires buffer.Length == 64 && index == |m| % 64
      requires Absorbed(Compress, Initial, m, state, buffer[..index])
      modifies this`state, buffer
      ensures Absorbed(Compress, Initial, m + data, state, buffer[..|m + data| % 64])
    {
      hide Compress, Absorbed;
      var i, j := 0, index;
      if j + |data| > 63 {
        Fill(j, data[..64 - j], m);
        i := TransformBlocks(data, 64 - j, m);
        j := 0;
        assert buffer[..0] == [];
      } else {
        assert m + data[..0] == m;
      }
      Keep(j, data[i..], m + data[..i]);
      assert m + data[..i] + data[i..] == m + data;
    }

    /** `SHA1Update`. */
    method Update(data: seq<byte>)
      requires Valid()
      modifies this, buffer
      ensures Valid() && message == old(message) + data
    {
      hide Absorbed, Counts, Compress, LowAfter, HighAfter;
      CountIndex(count0, count1, |message|);
      CountAdds(count0, count1, |message|, |data|);
      var j := count0 / 8 % 64;
      Tick(|data|);
      Absorb(j, data, message);
      message := message + data;
    }

    /** The loop of `SHA1Final` that pads one octet at a time.  The test reads bits 3 to 8 of the
        counter, the number of buffered octets times eight. */
    method PadZeros(ghost m: seq<byte>)
      requires Valid() && message == m + [0x80]
      modifies this, buffer
      ensures Valid() && message == m + [0x80] + Zeros((55 - |m|) % 64)
    {
      hide Absorbed, Counts, Compress, Bits3To8;
      ghost var k := 0;
      CountIndex(count0, count1, |message|);
      while Bits3To8(count0) != 448
        invariant Valid() && k <= (55 - |m|) % 64
        invariant message == m + [0x80] + Zeros(k)
        invariant count0 / 8 % 64 == |message| % 64
        decreases (55 - |m|) % 64 - k
      {
        PadCount(|m|, k);
        Update([0]);
        assert Zeros(k) + [0] == Zeros(k + 1);
        k := k + 1;
        CountIndex(count0, count1, |message|);
      }
      PadCount(|m|, k);
    }

    /** `SHA1Final`. */
    method Final() returns (digest: seq<byte>)
      requires Valid()
      modifies this, buffer
      ensures digest == Digest(old(message))
    {
      hide Absorbed, Counts, Compress, BeBytes, Digest, StateBytes, LengthOctets, Number;
      ghost var m := message;
      var finalcount := CountOctets(count0, count1);
      LengthOf(count0, count1, |m|);
      Update([0x80]);
      PadZeros(m);
      Update(finalcount);
      assert message == m + Padding(|m|);
      DigestFrom(m, state, buffer[..|message| % 64]);
      digest := DigestOctets(state);
      state := State(0, 0, 0, 0, 0);
      count0, count1 := 0, 0;
      Copy(buffer, 0, Zeros(64));
    }
  }

  /** The padding loop stops exactly when the padding is complete. */
  lemma PadCount(n: nat, k: nat)
    requires k <= (55 - n) % 64
    ensures (n + 1 + k) % 64 == 56 <==> k == (55 - n) % 64
  {
    var z := (55 - n) % 64;
    var q := (55 - n) / 64;
    assert 55 - n == 64 * q + z;
    assert n + 1 + k == 56 - (z - k) + 64 * (-q);
  }

  /** The loops that write counters and state words as octets. */
  method WriteOctets(words: seq<uint32>) returns (b: seq<byte>)
    ensures |b| == 4 * |words|
    ensures forall i :: 0 <= i < |b| ==> b[i] == OctetAt(words[i / 4], 3 - i % 4)
  {
    b := [];
    for i := 0 to 4 * |words|
      invariant |b| == i
      invariant forall j :: 0 <= j < i ==> b[j] == OctetAt(words[j / 4], 3 - j % 4)
    {
      b := b + [OctetAt(words[i / 4], 3 - i % 4)];
    }
  }

  /** Octets written that way are those of the words in order, high octet first. */
  lemma {:induction false} WrittenOctets(words: seq<uint32>, b: seq<byte>, n: nat)
    requires n <= |words| && |b| == 4 * |words|
    requires forall i :: 0 <= i < |b| ==> b[i] == OctetAt(words[i / 4], 3 - i % 4)
    ensures b[..4 * n] == AllBytes(words[..n])
  {
    if n > 0 {
      hide BeBytes, OctetAt;
      var m := n - 1;
      WrittenOctets(words, b, m);
      WrittenWord(words, b, m);
      assert words[..n][..m] == words[..m] && words[..n][m] == words[m];
      assert b[..4 * n] == b[..4 * m] + b[4 * m..4 * n];
    }
  }

  lemma WrittenWord(words: seq<uint32>, b: seq<byte>, m: nat)
    requires m < |words| && |b| == 4 * |words|
    requires forall i :: 0 <= i < |b| ==> b[i] == OctetAt(words[i / 4], 3 - i % 4)
    ensures b[4 * m..4 * m + 4] == BeBytes(words[m])
  {
    hide BeBytes, OctetAt;
    var j, w := 4 * m, words[m];
    assert j / 4 == m && (j + 1) / 4 == m && (j + 2) / 4 == m && (j + 3) / 4 == m;
    assert j % 4 == 0 && (j + 1) % 4 == 1 && (j + 2) % 4 == 2 && (j + 3) % 4 == 3;
    assert b[j] == OctetAt(w, 3) && b[j + 1] == OctetAt(w, 2) && b[j + 2] == OctetAt(w, 1) && b[j + 3] == OctetAt(w, 0);
    assert b[j..j + 4] == [b[j], b[j + 1], b[j + 2], b[j + 3]];
    HighFirst(w);
  }

  lemma HighFirst(w: uint32)
    ensures [OctetAt(w, 3), OctetAt(w, 2), OctetAt(w, 1), OctetAt(w, 0)] == BeBytes(w)
  {
    hide OctetAt;
  }

  function AllBytes(words: seq<uint32>): (b: seq<byte>) {
    if words == [] then [] else AllBytes(words[..|words| - 1]) + BeBytes(words[|words| - 1])
  }

  lemma AllBytesTwo(a: uint32, b: uint32)
    ensures AllBytes([a, b]) == BeBytes(a) + BeBytes(b)
  {
    hide BeBytes;
    assert [a, b][..1] == [a] && [a][..0] == [];
    assert AllBytes([a]) == [] + BeBytes(a) == BeBytes(a);
  }

  lemma AllBytesFive(a: uint32, b: uint32, c: uint32, d: uint32, e: uint32)
    ensures AllBytes([a, b, c, d, e]) == BeBytes(a) + BeBytes(b) + BeBytes(c) + BeBytes(d) + BeBytes(e)
  {
    hide BeBytes;
    assert [a, b, c, d, e][..4] == [a, b, c, d] && [a, b, c, d][..3] == [a, b, c] && [a, b, c][..2] == [a, b];
    AllBytesTwo(a, b);
    assert AllBytes([a, b, c]) == AllBytes([a, b]) + BeBytes(c);
    assert AllBytes([a, b, c, d]) == AllBytes([a, b, c]) + BeBytes(d);
  }

  /** `finalcount`: the high word first. */
  method CountOctets(lo: uint32, hi: uint32) returns (b: seq<byte>)
    ensures b == BeBytes(hi) + BeBytes(lo)
  {
    hide BeBytes, OctetAt, AllBytes;
    b := WriteOctets([hi, lo]);
    WrittenOctets([hi, lo], b, 2);
    assert b[..4 * 2] == b && [hi, lo][..2] == [hi, lo];
    AllBytesTwo(hi, lo);
  }

  method DigestOctets(s: State) returns (digest: seq<byte>)
    ensures digest == StateBytes(s)
  {
    hide Number, BeBytes, OctetAt, AllBytes;
    var words := [Number(s.a), Number(s.b), Number(s.c), Number(s.d), Number(s.e)];
    digest := WriteOctets(words);
    WrittenOctets(words, digest, 5);
    assert digest[..4 * 5] == digest && words[..5] == words;
    AllBytesFive(Number(s.a), Number(s.b), Number(s.c), Number(s.d), Number(s.e));
  }
}
