/** The `MD5_CTX` functions of the bundled HTTP server. */
module Md5Context {
  import opened Words
  import opened BlockStream
  import opened Rfc1321

  function F1(x: bv32, y: bv32, z: bv32): (r: bv32) { z ^ (x & (y ^ z)) }
  function F2(x: bv32, y: bv32, z: bv32): (r: bv32) { F1(z, x, y) }
  function F3(x: bv32, y: bv32, z: bv32): (r: bv32) { x ^ y ^ z }
  function F4(x: bv32, y: bv32, z: bv32): (r: bv32) { y ^ (x | !z) }

  lemma SelectIdentity(x: bv32, y: bv32, z: bv32)
    ensures z ^ (x & (y ^ z)) == (x & y) | (!x & z)
  {
  }

  /** The optimised selections are those of RFC 1321. */
  lemma F1IsF(x: bv32, y: bv32, z: bv32)
    ensures F1(x, y, z) == F(x, y, z)
  {
    SelectIdentity(x, y, z);
  }

  lemma F2IsG(x: bv32, y: bv32, z: bv32)
    ensures F2(x, y, z) == G(x, y, z)
  {
    hide F1, F;
    F1IsF(z, x, y);
    FIsG(x, y, z);
  }

  lemma FIsG(x: bv32, y: bv32, z: bv32)
    ensures F(z, x, y) == G(x, y, z)
  {
    assert (z & x) | (!z & y) == (x & z) | (y & !z);
  }

  lemma F3IsH(x: bv32, y: bv32, z: bv32)
    ensures F3(x, y, z) == H(x, y, z)
  {
  }

  lemma F4IsI(x: bv32, y: bv32, z: bv32)
    ensures F4(x, y, z) == I(x, y, z)
  {
  }

  /** The macro argument `in[k] + constant`. */
  function Data(x: bv32, t: uint32): (r: bv32) { Plus(x, Bits(t)) }

  /** The sum `w += f(x, y, z) + data`. */
  function Sum(w: bv32, f: bv32, data: bv32): (r: bv32) { w + (f + data) }

  /** `MD5STEP`: the three assignments to `w`. */
  function Md5Step(f: bv32, w: bv32, x: bv32, data: bv32, s: nat): (r: bv32)
    requires 0 < s < 32
  {
    Plus(Rotl(Sum(w, f, data), s), x)
  }

  lemma SumOf(a: bv32, f: bv32, x: bv32, t: bv32)
    ensures Sum(a, f, x + t) == a + f + x + t
  {
  }

  lemma TotalOf(a: bv32, f: bv32, x: bv32, t: bv32)
    ensures Total(a, f, x, t) == a + f + x + t
  {
  }

  lemma PlusOf(x: bv32, y: bv32)
    ensures Plus(x, y) == x + y
  {
  }

  lemma SumAssociates(a: bv32, f: bv32, x: bv32, t: bv32)
    ensures Sum(a, f, Plus(x, t)) == Total(a, f, x, t)
  {
    hide Sum, Plus, Total;
    PlusOf(x, t);
    SumOf(a, f, x, t);
    TotalOf(a, f, x, t);
  }

  lemma Md5StepIsNewWord(a: bv32, b: bv32, f: bv32, x: bv32, s: nat, t: uint32)
    requires 0 < s < 32
    ensures Md5Step(f, a, b, Data(x, t), s) == NewWord(a, b, f, x, t, s)
  {
    hide Rotl, Bits, Sum, Plus, Total;
    SumAssociates(a, f, x, Bits(t));
    PlusCommutes(Rotl(Total(a, f, x, Bits(t)), s), b);
  }

  lemma F1Next(x: seq<bv32>, i: nat, h: State, a: bv32, b: bv32, c: bv32, d: bv32, k: nat, s: nat, t: uint32)
    requires |x| == 16 && i / 16 == 0 && State(a, b, c, d) == Steps(x, i, h)
    requires k == Word(i) && s == Shift(i) && t == T(i)
    ensures State(d, Md5Step(F1(b, c, d), a, b, Data(x[k], t), s), b, c) == Steps(x, i + 1, h)
  {
    hide Md5Step, NewWord, F1, F, Steps, Word, Shift, T, Data;
    StepsNext(x, i, h);
    F1IsF(b, c, d);
    Md5StepIsNewWord(a, b, F(b, c, d), x[k], s, t);
  }

  lemma F2Next(x: seq<bv32>, i: nat, h: State, a: bv32, b: bv32, c: bv32, d: bv32, k: nat, s: nat, t: uint32)
    requires |x| == 16 && i / 16 == 1 && State(a, b, c, d) == Steps(x, i, h)
    requires k == Word(i) && s == Shift(i) && t == T(i)
    ensures State(d, Md5Step(F2(b, c, d), a, b, Data(x[k], t), s), b, c) == Steps(x, i + 1, h)
  {
    hide Md5Step, NewWord, F2, G, Steps, Word, Shift, T, Data;
    StepsNext(x, i, h);
    F2IsG(b, c, d);
    Md5StepIsNewWord(a, b, G(b, c, d), x[k], s, t);
  }

  lemma F3Next(x: seq<bv32>, i: nat, h: State, a: bv32, b: bv32, c: bv32, d: bv32, k: nat, s: nat, t: uint32)
    requires |x| == 16 && i / 16 == 2 && State(a, b, c, d) == Steps(x, i, h)
    requires k == Word(i) && s == Shift(i) && t == T(i)
    ensures State(d, Md5Step(F3(b, c, d), a, b, Data(x[k], t), s), b, c) == Steps(x, i + 1, h)
  {
    hide Md5Step, NewWord, F3, H, Steps, Word, Shift, T, Data;
    StepsNext(x, i, h);
    F3IsH(b, c, d);
    Md5StepIsNewWord(a, b, H(b, c, d), x[k], s, t);
  }

  lemma F4Next(x: seq<bv32>, i: nat, h: State, a: bv32, b: bv32, c: bv32, d: bv32, k: nat, s: nat, t: uint32)
    requires |x| == 16 && i / 16 == 3 && State(a, b, c, d) == Steps(x, i, h)
    requires k == Word(i) && s == Shift(i) && t == T(i)
    ensures State(d, Md5Step(F4(b, c, d), a, b, Data(x[k], t), s), b, c) == Steps(x, i + 1, h)
  {
    hide Md5Step, NewWord, F4, I, Steps, Word, Shift, T, Data;
    StepsNext(x, i, h);
    F4IsI(b, c, d);
    Md5StepIsNewWord(a, b, I(b, c, d), x[k], s, t);
  }

  /** The first eight steps of `MD5Transform` that use `F1`. */
  method Steps1First(input: seq<bv32>, ghost h: State, a0: bv32, b0: bv32, c0: bv32, d0: bv32)
    returns (a: bv32, b: bv32, c: bv32, d: bv32)
    requires |input| == 16 && State(a0, b0, c0, d0) == Steps(input, 0, h)
    ensures State(a, b, c, d) == Steps(input, 8, h)
  {
    hide *;
    Row1();
    a, b, c, d := a0, b0, c0, d0;
    F1Next(input, 0, h, a, b, c, d, 0, 7, 0xd76aa478);
    a := Md5Step(F1(b, c, d), a, b, Data(input[0], 0xd76aa478), 7);
    F1Next(input, 1, h, d, a, b, c, 1, 12, 0xe8c7b756);
    d := Md5Step(F1(a, b, c), d, a, Data(input[1], 0xe8c7b756), 12);
    F1Next(input, 2, h, c, d, a, b, 2, 17, 0x242070db);
    c := Md5Step(F1(d, a, b), c, d, Data(input[2], 0x242070db), 17);
    F1Next(input, 3, h, b, c, d, a, 3, 22, 0xc1bdceee);
    b := Md5Step(F1(c, d, a), b, c, Data(input[3], 0xc1bdceee), 22);
    F1Next(input, 4, h, a, b, c, d, 4, 7, 0xf57c0faf);
    a := Md5Step(F1(b, c, d), a, b, Data(input[4], 0xf57c0faf), 7);
    F1Next(input, 5, h, d, a, b, c, 5, 12, 0x4787c62a);
    d := Md5Step(F1(a, b, c), d, a, Data(input[5], 0x4787c62a), 12);
    F1Next(input, 6, h, c, d, a, b, 6, 17, 0xa8304613);
    c := Md5Step(F1(d, a, b), c, d, Data(input[6], 0xa8304613), 17);
    F1Next(input, 7, h, b, c, d, a, 7, 22, 0xfd469501);
    b := Md5Step(F1(c, d, a), b, c, Data(input[7], 0xfd469501), 22);
  }

  /** The last eight. */
  method Steps1Last(input: seq<bv32>, ghost h: State, a0: bv32, b0: bv32, c0: bv32, d0: bv32)
    returns (a: bv32, b: bv32, c: bv32, d: bv32)
    requires |input| == 16 && State(a0, b0, c0, d0) == Steps(input, 8, h)
    ensures State(a, b, c, d) == Steps(input, 16, h)
  {
    hide *;
    Row1();
    a, b, c, d := a0, b0, c0, d0;
    F1Next(input, 8, h, a, b, c, d, 8, 7, 0x698098d8);
    a := Md5Step(F1(b, c, d), a, b, Data(input[8], 0x698098d8), 7);
    F1Next(input, 9, h, d, a, b, c, 9, 12, 0x8b44f7af);
    d := Md5Step(F1(a, b, c), d, a, Data(input[9], 0x8b44f7af), 12);
    F1Next(input, 10, h, c, d, a, b, 10, 17, 0xffff5bb1);
    c := Md5Step(F1(d, a, b), c, d, Data(input[10], 0xffff5bb1), 17);
    F1Next(input, 11, h, b, c, d, a, 11, 22, 0x895cd7be);
    b := Md5Step(F1(c, d, a), b, c, Data(input[11], 0x895cd7be), 22);
    F1Next(input, 12, h, a, b, c, d, 12, 7, 0x6b901122);
    a := Md5Step(F1(b, c, d), a, b, Data(input[12], 0x6b901122), 7);
    F1Next(input, 13, h, d, a, b, c, 13, 12, 0xfd987193);
    d := Md5Step(F1(a, b, c), d, a, Data(input[13], 0xfd987193), 12);
    F1Next(input, 14, h, c, d, a, b, 14, 17, 0xa679438e);
    c := Md5Step(F1(d, a, b), c, d, Data(input[14], 0xa679438e), 17);
    F1Next(input, 15, h, b, c, d, a, 15, 22, 0x49b40821);
    b := Md5Step(F1(c, d, a), b, c, Data(input[15], 0x49b40821), 22);
  }

  /** The steps of `MD5Transform` that use `F1`. */
  method Steps1(input: seq<bv32>, ghost h: State, a0: bv32, b0: bv32, c0: bv32, d0: bv32)
    returns (a: bv32, b: bv32, c: bv32, d: bv32)
    requires |input| == 16 && State(a0, b0, c0, d0) == Steps(input, 0, h)
    ensures State(a, b, c, d) == Steps(input, 16, h)
  {
    hide *;
    a, b, c, d := Steps1First(input, h, a0, b0, c0, d0);
    a, b, c, d := Steps1Last(input, h, a, b, c, d);
  }

  /** The first eight steps of `MD5Transform` that use `F2`. */
  method Steps2First(input: seq<bv32>, ghost h: State, a0: bv32, b0: bv32, c0: bv32, d0: bv32)
    returns (a: bv32, b: bv32, c: bv32, d: bv32)
    requires |input| == 16 && State(a0, b0, c0, d0) == Steps(input, 16, h)
    ensures State(a, b, c, d) == Steps(input, 24, h)
  {
    hide *;
    Row2();
    a, b, c, d := a0, b0, c0, d0;
    F2Next(input, 16, h, a, b, c, d, 1, 5, 0xf61e2562);
    a := Md5Step(F2(b, c, d), a, b, Data(input[1], 0xf61e2562), 5);
    F2Next(input, 17, h, d, a, b, c, 6, 9, 0xc040b340);
    d := Md5Step(F2(a, b, c), d, a, Data(input[6], 0xc040b340), 9);
    F2Next(input, 18, h, c, d, a, b, 11, 14, 0x265e5a51);
    c := Md5Step(F2(d, a, b), c, d, Data(input[11], 0x265e5a51), 14);
    F2Next(input, 19, h, b, c, d, a, 0, 20, 0xe9b6c7aa);
    b := Md5Step(F2(c, d, a), b, c, Data(input[0], 0xe9b6c7aa), 20);
    F2Next(input, 20, h, a, b, c, d, 5, 5, 0xd62f105d);
    a := Md5Step(F2(b, c, d), a, b, Data(input[5], 0xd62f105d), 5);
    F2Next(input, 21, h, d, a, b, c, 10, 9, 0x02441453);
    d := Md5Step(F2(a, b, c), d, a, Data(input[10], 0x02441453), 9);
    F2Next(input, 22, h, c, d, a, b, 15, 14, 0xd8a1e681);
    c := Md5Step(F2(d, a, b), c, d, Data(input[15], 0xd8a1e681), 14);
    F2Next(input, 23, h, b, c, d, a, 4, 20, 0xe7d3fbc8);
    b := Md5Step(F2(c, d, a), b, c, Data(input[4], 0xe7d3fbc8), 20);
  }

  /** The last eight. */
  method Steps2Last(input: seq<bv32>, ghost h: State, a0: bv32, b0: bv32, c0: bv32, d0: bv32)
    returns (a: bv32, b: bv32, c: bv32, d: bv32)
    requires |input| == 16 && State(a0, b0, c0, d0) == Steps(input, 24, h)
    ensures State(a, b, c, d) == Steps(input, 32, h)
  {
    hide *;
    Row2();
    a, b, c, d := a0, b0, c0, d0;
    F2Next(input, 24, h, a, b, c, d, 9, 5, 0x21e1cde6);
    a := Md5Step(F2(b, c, d), a, b, Data(input[9], 0x21e1cde6), 5);
    F2Next(input, 25, h, d, a, b, c, 14, 9, 0xc33707d6);
    d := Md5Step(F2(a, b, c), d, a, Data(input[14], 0xc33707d6), 9);
    F2Next(input, 26, h, c, d, a, b, 3, 14, 0xf4d50d87);
    c := Md5Step(F2(d, a, b), c, d, Data(input[3], 0xf4d50d87), 14);
    F2Next(input, 27, h, b, c, d, a, 8, 20, 0x455a14ed);
    b := Md5Step(F2(c, d, a), b, c, Data(input[8], 0x455a14ed), 20);
    F2Next(input, 28, h, a, b, c, d, 13, 5, 0xa9e3e905);
    a := Md5Step(F2(b, c, d), a, b, Data(input[13], 0xa9e3e905), 5);
    F2Next(input, 29, h, d, a, b, c, 2, 9, 0xfcefa3f8);
    d := Md5Step(F2(a, b, c), d, a, Data(input[2], 0xfcefa3f8), 9);
    F2Next(input, 30, h, c, d, a, b, 7, 14, 0x676f02d9);
    c := Md5Step(F2(d, a, b), c, d, Data(input[7], 0x676f02d9), 14);
    F2Next(input, 31, h, b, c, d, a, 12, 20, 0x8d2a4c8a);
    b := Md5Step(F2(c, d, a), b, c, Data(input[12], 0x8d2a4c8a), 20);
  }

  /** The steps of `MD5Transform` that use `F2`. */
  method Steps2(input: seq<bv32>, ghost h: State, a0: bv32, b0: bv32, c0: bv32, d0: bv32)
    returns (a: bv32, b: bv32, c: bv32, d: bv32)
    requires |input| == 16 && State(a0, b0, c0, d0) == Steps(input, 16, h)
    ensures State(a, b, c, d) == Steps(input, 32, h)
  {
    hide *;
    a, b, c, d := Steps2First(input, h, a0, b0, c0, d0);
    a, b, c, d := Steps2Last(input, h, a, b, c, d);
  }

  /** The first eight steps of `MD5Transform` that use `F3`. */
  method Steps3First(input: seq<bv32>, ghost h: State, a0: bv32, b0: bv32, c0: bv32, d0: bv32)
    returns (a: bv32, b: bv32, c: bv32, d: bv32)
    requires |input| == 16 && State(a0, b0, c0, d0) == Steps(input, 32, h)
    ensures State(a, b, c, d) == Steps(input, 40, h)
  {
    hide *;
    Row3();
    a, b, c, d := a0, b0, c0, d0;
    F3Next(input, 32, h, a, b, c, d, 5, 4, 0xfffa3942);
    a := Md5Step(F3(b, c, d), a, b, Data(input[5], 0xfffa3942), 4);
    F3Next(input, 33, h, d, a, b, c, 8, 11, 0x8771f681);
    d := Md5Step(F3(a, b, c), d, a, Data(input[8], 0x8771f681), 11);
    F3Next(input, 34, h, c, d, a, b, 11, 16, 0x6d9d6122);
    c := Md5Step(F3(d, a, b), c, d, Data(input[11], 0x6d9d6122), 16);
    F3Next(input, 35, h, b, c, d, a, 14, 23, 0xfde5380c);
    b := Md5Step(F3(c, d, a), b, c, Data(input[14], 0xfde5380c), 23);
    F3Next(input, 36, h, a, b, c, d, 1, 4, 0xa4beea44);
    a := Md5Step(F3(b, c, d), a, b, Data(input[1], 0xa4beea44), 4);
    F3Next(input, 37, h, d, a, b, c, 4, 11, 0x4bdecfa9);
    d := Md5Step(F3(a, b, c), d, a, Data(input[4], 0x4bdecfa9), 11);
    F3Next(input, 38, h, c, d, a, b, 7, 16, 0xf6bb4b60);
    c := Md5Step(F3(d, a, b), c, d, Data(input[7], 0xf6bb4b60), 16);
    F3Next(input, 39, h, b, c, d, a, 10, 23, 0xbebfbc70);
    b := Md5Step(F3(c, d, a), b, c, Data(input[10], 0xbebfbc70), 23);
  }

  /** The last eight. */
  method Steps3Last(input: seq<bv32>, ghost h: State, a0: bv32, b0: bv32, c0: bv32, d0: bv32)
    returns (a: bv32, b: bv32, c: bv32, d: bv32)
    requires |input| == 16 && State(a0, b0, c0, d0) == Steps(input, 40, h)
    ensures State(a, b, c, d) == Steps(input, 48, h)
  {
    hide *;
    Row3();
    a, b, c, d := a0, b0, c0, d0;
    F3Next(input, 40, h, a, b, c, d, 13, 4, 0x289b7ec6);
    a := Md5Step(F3(b, c, d), a, b, Data(input[13], 0x289b7ec6), 4);
    F3Next(input, 41, h, d, a, b, c, 0, 11, 0xeaa127fa);
    d := Md5Step(F3(a, b, c), d, a, Data(input[0], 0xeaa127fa), 11);
    F3Next(input, 42, h, c, d, a, b, 3, 16, 0xd4ef3085);
    c := Md5Step(F3(d, a, b), c, d, Data(input[3], 0xd4ef3085), 16);
    F3Next(input, 43, h, b, c, d, a, 6, 23, 0x04881d05);
    b := Md5Step(F3(c, d, a), b, c, Data(input[6], 0x04881d05), 23);
    F3Next(input, 44, h, a, b, c, d, 9, 4, 0xd9d4d039);
    a := Md5Step(F3(b, c, d), a, b, Data(input[9], 0xd9d4d039), 4);
    F3Next(input, 45, h, d, a, b, c, 12, 11, 0xe6db99e5);
    d := Md5Step(F3(a, b, c), d, a, Data(input[12], 0xe6db99e5), 11);
    F3Next(input, 46, h, c, d, a, b, 15, 16, 0x1fa27cf8);
    c := Md5Step(F3(d, a, b), c, d, Data(input[15], 0x1fa27cf8), 16);
    F3Next(input, 47, h, b, c, d, a, 2, 23, 0xc4ac5665);
    b := Md5Step(F3(c, d, a), b, c, Data(input[2], 0xc4ac5665), 23);
  }

  /** The steps of `MD5Transform` that use `F3`. */
  method Steps3(input: seq<bv32>, ghost h: State, a0: bv32, b0: bv32, c0: bv32, d0: bv32)
    returns (a: bv32, b: bv32, c: bv32, d: bv32)
    requires |input| == 16 && State(a0, b0, c0, d0) == Steps(input, 32, h)
    ensures State(a, b, c, d) == Steps(input, 48, h)
  {
    hide *;
    a, b, c, d := Steps3First(input, h, a0, b0, c0, d0);
    a, b, c, d := Steps3Last(input, h, a, b, c, d);
  }

  /** The first eight steps of `MD5Transform` that use `F4`. */
  method Steps4First(input: seq<bv32>, ghost h: State, a0: bv32, b0: bv32, c0: bv32, d0: bv32)
    returns (a: bv32, b: bv32, c: bv32, d: bv32)
    requires |input| == 16 && State(a0, b0, c0, d0) == Steps(input, 48, h)
    ensures State(a, b, c, d) == Steps(input, 56, h)
  {
    hide *;
    Row4();
    a, b, c, d := a0, b0, c0, d0;
    F4Next(input, 48, h, a, b, c, d, 0, 6, 0xf4292244);
    a := Md5Step(F4(b, c, d), a, b, Data(input[0], 0xf4292244), 6);
    F4Next(input, 49, h, d, a, b, c, 7, 10, 0x432aff97);
    d := Md5Step(F4(a, b, c), d, a, Data(input[7], 0x432aff97), 10);
    F4Next(input, 50, h, c, d, a, b, 14, 15, 0xab9423a7);
    c := Md5Step(F4(d, a, b), c, d, Data(input[14], 0xab9423a7), 15);
    F4Next(input, 51, h, b, c, d, a, 5, 21, 0xfc93a039);
    b := Md5Step(F4(c, d, a), b, c, Data(input[5], 0xfc93a039), 21);
    F4Next(input, 52, h, a, b, c, d, 12, 6, 0x655b59c3);
    a := Md5Step(F4(b, c, d), a, b, Data(input[12], 0x655b59c3), 6);
    F4Next(input, 53, h, d, a, b, c, 3, 10, 0x8f0ccc92);
    d := Md5Step(F4(a, b, c), d, a, Data(input[3], 0x8f0ccc92), 10);
    F4Next(input, 54, h, c, d, a, b, 10, 15, 0xffeff47d);
    c := Md5Step(F4(d, a, b), c, d, Data(input[10], 0xffeff47d), 15);
    F4Next(input, 55, h, b, c, d, a, 1, 21, 0x85845dd1);
    b := Md5Step(F4(c, d, a), b, c, Data(input[1], 0x85845dd1), 21);
  }

  /** The last eight. */
  method Steps4Last(input: seq<bv32>, ghost h: State, a0: bv32, b0: bv32, c0: bv32, d0: bv32)
    returns (a: bv32, b: bv32, c: bv32, d: bv32)
    requires |input| == 16 && State(a0, b0, c0, d0) == Steps(input, 56, h)
    ensures State(a, b, c, d) == Steps(input, 64, h)
  {
    hide *;
    Row4();
    a, b, c, d := a0, b0, c0, d0;
    F4Next(input, 56, h, a, b, c, d, 8, 6, 0x6fa87e4f);
    a := Md5Step(F4(b, c, d), a, b, Data(input[8], 0x6fa87e4f), 6);
    F4Next(input, 57, h, d, a, b, c, 15, 10, 0xfe2ce6e0);
    d := Md5Step(F4(a, b, c), d, a, Data(input[15], 0xfe2ce6e0), 10);
    F4Next(input, 58, h, c, d, a, b, 6, 15, 0xa3014314);
    c := Md5Step(F4(d, a, b), c, d, Data(input[6], 0xa3014314), 15);
    F4Next(input, 59, h, b, c, d, a, 13, 21, 0x4e0811a1);
    b := Md5Step(F4(c, d, a), b, c, Data(input[13], 0x4e0811a1), 21);
    F4Next(input, 60, h, a, b, c, d, 4, 6, 0xf7537e82);
    a := Md5Step(F4(b, c, d), a, b, Data(input[4], 0xf7537e82), 6);
    F4Next(input, 61, h, d, a, b, c, 11, 10, 0xbd3af235);
    d := Md5Step(F4(a, b, c), d, a, Data(input[11], 0xbd3af235), 10);
    F4Next(input, 62, h, c, d, a, b, 2, 15, 0x2ad7d2bb);
    c := Md5Step(F4(d, a, b), c, d, Data(input[2], 0x2ad7d2bb), 15);
    F4Next(input, 63, h, b, c, d, a, 9, 21, 0xeb86d391);
    b := Md5Step(F4(c, d, a), b, c, Data(input[9], 0xeb86d391), 21);
  }

  /** The steps of `MD5Transform` that use `F4`. */
  method Steps4(input: seq<bv32>, ghost h: State, a0: bv32, b0: bv32, c0: bv32, d0: bv32)
    returns (a: bv32, b: bv32, c: bv32, d: bv32)
    requires |input| == 16 && State(a0, b0, c0, d0) == Steps(input, 48, h)
    ensures State(a, b, c, d) == Steps(input, 64, h)
  {
    hide *;
    a, b, c, d := Steps4First(input, h, a0, b0, c0, d0);
    a, b, c, d := Steps4Last(input, h, a, b, c, d);
  }

  // ---------------------------------------------------------------------
  // Words in the byte order of the machine.

  function NativeWord(big: bool, b: seq<byte>): (w: uint32)
    requires |b| == 4
  {
    if big then BigEndian(b) else LittleEndian(b)
  }

  function NativeBytes(big: bool, w: uint32): (b: seq<byte>)
    ensures |b| == 4
  {
    if big then BeBytes(w) else LeBytes(w)
  }

  function NativeWords(big: bool, b: Block): (x: seq<bv32>)
    ensures |x| == 16
  {
    seq(16, k requires 0 <= k < 16 => Bits(NativeWord(big, b[4 * k..4 * k + 4])))
  }

  lemma NativeRoundTrip(big: bool, w: uint32)
    ensures NativeWord(big, NativeBytes(big, w)) == w
  {
    hide LittleEndian, LeBytes, BigEndian, BeBytes;
    WordRoundTrips(w);
  }

  /** The machine reads each of the first `longs` words of `after` as the octets of
      `before` spell it, low octet first; the octets that follow are the same. */
  ghost predicate ReadsAs(big: bool, after: seq<byte>, before: seq<byte>, longs: nat) {
    && 4 * longs <= |before| == |after|
    && (forall k :: 0 <= k < longs ==>
          NativeWord(big, after[4 * k..4 * k + 4]) == LittleEndian(before[4 * k..4 * k + 4]))
    && after[4 * longs..] == before[4 * longs..]
  }

  lemma ReadsOneMore(big: bool, before: seq<byte>, mid: seq<byte>, after: seq<byte>, i: nat)
    requires ReadsAs(big, mid, before, i) && 4 * i + 4 <= |mid|
    requires after == mid[..4 * i] + NativeBytes(big, LittleEndian(mid[4 * i..4 * i + 4])) + mid[4 * i + 4..]
    ensures ReadsAs(big, after, before, i + 1)
  {
    hide LittleEndian, NativeBytes, NativeWord;
    var t := LittleEndian(mid[4 * i..4 * i + 4]);
    NativeRoundTrip(big, t);
    assert after[4 * i..4 * i + 4] == NativeBytes(big, t);
    assert mid[4 * i..][..4] == before[4 * i..][..4];
    assert mid[4 * i..4 * i + 4] == mid[4 * i..][..4] && before[4 * i..4 * i + 4] == before[4 * i..][..4];
    assert after[..4 * i] == mid[..4 * i];
    forall k | 0 <= k < i ensures after[4 * k..4 * k + 4] == mid[4 * k..4 * k + 4] {
      SliceKept(mid, after, 4 * k, 4 * k + 4, 4 * i);
    }
    assert after[4 * (i + 1)..] == mid[4 * i..][4..] == before[4 * i..][4..];
  }

  /** `byteReverse`, which does something only on a big-endian machine. */
  method ByteReverse(big: bool, a: array<byte>, longs: nat)
    requires 4 * longs <= a.Length
    modifies a
    ensures ReadsAs(big, a[..], old(a[..]), longs)
  {
    hide LittleEndian, BigEndian, NativeBytes, ReadsAs;
    if big {
      ReadsNone(big, a[..]);
      for i := 0 to longs
        invariant ReadsAs(big, a[..], old(a[..]), i)
      {
        label L:
        ghost var mid := a[..];
        var t := LittleEndian(a[4 * i..4 * i + 4]);
        Copy(a, 4 * i, NativeBytes(big, t));
        assert mid[4 * i..4 * i + 4] == old@L(a[4 * i..4 * i + 4]);
        ReadsOneMore(big, old(a[..]), mid, a[..], i);
      }
    } else {
      ReadsSame(a[..], longs);
    }
  }

  lemma ReadsNone(big: bool, a: seq<byte>)
    ensures ReadsAs(big, a, a, 0)
  {
  }

  lemma ReadsSame(a: seq<byte>, longs: nat)
    requires 4 * longs <= |a|
    ensures ReadsAs(false, a, a, longs)
  {
    hide LittleEndian;
  }

  /** A reversed block is read as its sixteen words. */
  lemma ReadsBlock(big: bool, after: Block, before: Block)
    requires ReadsAs(big, after, before, 16)
    ensures NativeWords(big, after) == WordsOf(before)
  {
    hide LittleEndian, NativeWord, Bits;
    forall k | 0 <= k < 16 ensures NativeWords(big, after)[k] == WordsOf(before)[k] {
    }
  }

  /** Fourteen reversed words and two counters stored as words are read as the last block. */
  lemma ReadsFinal(big: bool, reversed: Block, before: Block, lo: uint32, hi: uint32)
    requires ReadsAs(big, reversed, before, 14)
    ensures var final := reversed[..56] + (NativeBytes(big, lo) + NativeBytes(big, hi));
            NativeWords(big, final) == WordsOf(before[..56] + LeBytes(lo) + LeBytes(hi))
  {
    hide LittleEndian, NativeWord, NativeBytes, LeBytes, Bits;
    var final := reversed[..56] + (NativeBytes(big, lo) + NativeBytes(big, hi));
    var block := before[..56] + LeBytes(lo) + LeBytes(hi);
    forall k | 0 <= k < 16 ensures NativeWords(big, final)[k] == WordsOf(block)[k] {
      if k < 14 {
        SliceKept(reversed, final, 4 * k, 4 * k + 4, 56);
        SliceKept(before, block, 4 * k, 4 * k + 4, 56);
      } else {
        NativeRoundTrip(big, lo);
        NativeRoundTrip(big, hi);
        LeRoundTrip(lo);
        LeRoundTrip(hi);
        assert final[56..60] == NativeBytes(big, lo) && final[60..64] == NativeBytes(big, hi);
        assert block[56..60] == LeBytes(lo) && block[60..64] == LeBytes(hi);
      }
    }
  }

  lemma LeRoundTrip(w: uint32)
    ensures LittleEndian(LeBytes(w)) == w
  {
    WordRoundTrips(w);
  }

  // ---------------------------------------------------------------------

  class Context {
    const bigEndian: bool
    var buf: State
    var bits0: uint32
    var bits1: uint32
    const input: array<byte>
    ghost var message: seq<byte>     // the octets given so far

    ghost predicate Valid()
      reads this, input
    {
      && input.Length == 64
      && Counts(bits0, bits1, |message|)
      && Absorbed(Compress, Initial, message, buf, input[..|message| % 64])
    }

    /** `MD5Init`. */
    constructor (bigEndian: bool)
      ensures Valid() && message == [] && fresh(input)
    {
      this.bigEndian := bigEndian;
      buf := State(0x67452301, 0xefcdab89, 0x98badcfe, 0x10325476);
      bits0, bits1 := 0, 0;
      input := new byte[64](_ => 0);
      message := [];
      new;
      assert message[..0] == [] && input[..0] == [];
    }

    /** `MD5Transform` on the words the machine reads from `in`. */
    method Transform(x: seq<bv32>)
      requires |x| == 16
      modifies this`buf
      ensures buf == CompressWords(old(buf), x)
    {
      hide Steps, Add;
      var h := buf;
      StepsNone(x, h);
      var a, b, c, d := Steps1(x, h, h.a, h.b, h.c, h.d);
      a, b, c, d := Steps2(x, h, a, b, c, d);
      a, b, c, d := Steps3(x, h, a, b, c, d);
      a, b, c, d := Steps4(x, h, a, b, c, d);
      buf := Add(h, State(a, b, c, d));
    }

    /** `byteReverse` and `MD5Transform` of the full input buffer. */
    method TransformInput()
      requires input.Length == 64
      modifies this`buf, input
      ensures buf == Compress(old(buf), old(input[..]))
    {
      hide CompressWords, ReadsAs, WordsOf, NativeWords;
      ByteReverse(bigEndian, input, 16);
      ReadsBlock(bigEndian, input[..], old(input[..]));
      Transform(NativeWords(bigEndian, input[..]));
    }

    /** The two bit counters after `len` more octets. */
    method Tick(len: uint32)
      modifies this`bits0, this`bits1
      ensures bits0 == LowAfter(old(bits0), len)
      ensures bits1 == HighAfter(old(bits0), old(bits1), len)
    {
      var t := bits0;
      CarryTest(t, len * 8 % TWO32);
      AddTwice(bits1 + 1, len / 0x2000_0000);
      bits0 := (t + len * 8 % TWO32) % TWO32;
      if bits0 < t { bits1 := (bits1 + 1) % TWO32; }
      bits1 := (bits1 + len / 0x2000_0000) % TWO32;
    }

    /** Fill the input buffer up to a block and transform it. */
    method Fill(t: nat, part: seq<byte>, ghost m: seq<byte>)
      requires input.Length == 64 && t + |part| == 64
      requires Absorbed(Compress, Initial, m, buf, input[..t])
      modifies this`buf, input
      ensures Absorbed(Compress, Initial, m + part, buf, [])
    {
      hide Compress, Absorbed;
      AbsorbFill(Compress, Initial, m, buf, input[..t], part);
      Copy(input, t, part);
      assert input[..] == old(input[..t]) + part;
      TransformInput();
    }

    /** Keep the rest of the data in the input buffer. */
    method Keep(t: nat, rest: seq<byte>, ghost m: seq<byte>)
      requires input.Length == 64 && t + |rest| < 64
      requires Absorbed(Compress, Initial, m, buf, input[..t])
      modifies input
      ensures Absorbed(Compress, Initial, m + rest, buf, input[..|m + rest| % 64])
    {
      hide Compress, Absorbed;
      AbsorbShort(Compress, Initial, m, buf, input[..t], rest);
      AbsorbedTail(Compress, Initial, m + rest, buf, input[..t] + rest);
      Copy(input, t, rest);
      assert input[..t + |rest|] == old(input[..t]) + rest;
    }

    /** The second half of `MD5Update`: whole blocks, then the rest, with an empty buffer. */
    method Blocks(data: seq<byte>, ghost m: seq<byte>)
      requires input.Length == 64 && Absorbed(Compress, Initial, m, buf, [])
      modifies this`buf, input
      ensures Absorbed(Compress, Initial, m + data, buf, input[..|m + data| % 64])
    {
      hide Compress, Absorbed;
      var rest := data;
      ghost var done := m;
      while |rest| >= 64
        invariant done + rest == m + data && Absorbed(Compress, Initial, done, buf, [])
      {
        assert input[..0] == [];
        Fill(0, rest[..64], done);
        assert done + rest[..64] + rest[64..] == done + rest;
        done := done + rest[..64];
        rest := rest[64..];
      }
      assert input[..0] == [];
      Keep(0, rest, done);
    }

    /** The buffering part of `MD5Update`: `t` octets of `m` are in the buffer. */
    method Absorb(t: nat, data: seq<byte>, ghost m: seq<byte>)
      requires input.Length == 64 && t == |m| % 64
      requires Absorbed(Compress, Initial, m, buf, input[..t])
      modifies this`buf, input
      ensures Absorbed(Compress, Initial, m + data, buf, input[..|m + data| % 64])
    {
      hide Compress, Absorbed;
      if t != 0 {
        if |data| < 64 - t {
          Keep(t, data, m);
        } else {
          Fill(t, data[..64 - t], m);
          Blocks(data[64 - t..], m + data[..64 - t]);
          assert m + data[..64 - t] + data[64 - t..] == m + data;
        }
      } else {
        assert input[..0] == [];
        Blocks(data, m);
      }
    }

    /** `MD5Update`. */
    method Update(data: seq<byte>)
      requires Valid() && |data| < TWO32
      modifies this, input
      ensures Valid() && message == old(message) + data
    {
      hide Absorbed, Counts, Compress, LowAfter, HighAfter;
      CountIndex(bits0, bits1, |message|);
      CountAdds(bits0, bits1, |message|, |data|);
      var t := bits0 / 8 % 64;
      Tick(|data|);
      Absorb(t, data, message);
      message := message + data;
    }

    /** The end of `MD5Final`: reverse 14 words, place the two counters, transform. */
    method Finish()
      requires input.Length == 64
      modifies this`buf, input
      ensures buf == Compress(old(buf), old(input[..56]) + LeBytes(bits0) + LeBytes(bits1))
    {
      hide CompressWords, ReadsAs, WordsOf, NativeWords, NativeBytes, LeBytes;
      ByteReverse(bigEndian, input, 14);
      ghost var reversed := input[..];
      Copy(input, 56, NativeBytes(bigEndian, bits0) + NativeBytes(bigEndian, bits1));
      assert input[..] == reversed[..56] + (NativeBytes(bigEndian, bits0) + NativeBytes(bigEndian, bits1));
      ReadsFinal(bigEndian, reversed, old(input[..]), bits0, bits1);
      assert old(input[..])[..56] == old(input[..56]);
      Transform(NativeWords(bigEndian, input[..]));
    }

    /** The first block of a padding that takes two. */
    method PadFirst(count: nat, ghost m: seq<byte>)
      requires input.Length == 64 && 55 < count == |m| % 64
      requires Absorbed(Compress, Initial, m, buf, input[..count])
      modifies this`buf, input
      ensures |m + ([0x80] + Zeros(63 - count))| % 64 == 0
      ensures Absorbed(Compress, Initial, m + ([0x80] + Zeros(63 - count)), buf, [])
    {
      hide Compress, Absorbed;
      Filled(|m|, count);
      ghost var one := [0x80] + Zeros(63 - count);
      AbsorbFill(Compress, Initial, m, buf, input[..count], one);
      Copy(input, count, [0x80] + Zeros(64 - 1 - count));
      assert input[..] == old(input[..count]) + one;
      TransformInput();
    }

    /** The padding when the length does not fit after the buffered octets. */
    method PadTwice(count: nat, ghost m: seq<byte>)
      requires input.Length == 64 && 55 < count == |m| % 64 && Counts(bits0, bits1, |m|)
      requires Absorbed(Compress, Initial, m, buf, input[..count])
      modifies this`buf, input
      ensures Absorbed(Compress, Initial, m + Padding(|m|), buf, [])
    {
      hide Compress, Absorbed, LeBytes, Counts, Padding, LengthOctets, Zeros;
      ghost var one, two := [0x80] + Zeros(63 - count), Zeros(56) + LengthOctets(|m|);
      LengthOf(bits0, bits1, |m|);
      PaddingSplit(|m|);
      PadFirst(count, m);
      PadLast(m + one);
      Regrouped(m, one, Zeros(56), LeBytes(bits0), LeBytes(bits1));
      assert Padding(|m|) == one + (Zeros(56) + (LeBytes(bits0) + LeBytes(bits1)));
    }

    /** The last block of a padding that takes two: zeros and the length. */
    method PadLast(ghost m: seq<byte>)
      requires input.Length == 64 && |m| % 64 == 0 && Absorbed(Compress, Initial, m, buf, [])
      modifies this`buf, input
      ensures Absorbed(Compress, Initial, m + (Zeros(56) + LeBytes(bits0) + LeBytes(bits1)), buf, [])
    {
      hide Compress, Absorbed, LeBytes;
      ghost var block := Zeros(56) + LeBytes(bits0) + LeBytes(bits1);
      AbsorbFill(Compress, Initial, m, buf, [], block);
      Copy(input, 0, Zeros(56));
      assert input[..56] == Zeros(56) && [] + block == block;
      Finish();
    }

    /** The padding when the length fits. */
    method PadOnce(count: nat, ghost m: seq<byte>)
      requires input.Length == 64 && 55 >= count == |m| % 64 && Counts(bits0, bits1, |m|)
      requires Absorbed(Compress, Initial, m, buf, input[..count])
      modifies this`buf, input
      ensures Absorbed(Compress, Initial, m + Padding(|m|), buf, [])
    {
      hide Compress, Absorbed, LeBytes, Counts, Padding, LengthOctets;
      var left := 64 - 1 - count;
      ghost var one := [0x80] + Zeros(left - 8);
      LengthOf(bits0, bits1, |m|);
      AbsorbFill(Compress, Initial, m, buf, input[..count], one + LengthOctets(|m|));
      Copy(input, count, [0x80] + Zeros(left - 8));
      assert input[..56] == old(input[..count]) + one;
      assert old(input[..count]) + (one + LengthOctets(|m|)) == input[..56] + LeBytes(bits0) + LeBytes(bits1);
      Finish();
      PaddingSplit(|m|);
    }

    /** `MD5Final`: the digest of everything given, and a zeroed context. */
    method Final() returns (digest: seq<byte>)
      requires Valid()
      modifies this, input
      ensures digest == Digest(old(message))
    {
      hide Compress, Absorbed, Counts, Padding, Digest, StateBytes;
      CountIndex(bits0, bits1, |message|);
      var count := bits0 / 8 % 64;
      if 64 - 1 - count < 8 { PadTwice(count, message); } else { PadOnce(count, message); }
      DigestFrom(message, buf, []);
      digest := NativeDigest(bigEndian, buf);
      buf := State(0, 0, 0, 0);
      bits0, bits1 := 0, 0;
      Copy(input, 0, Zeros(64));
    }
  }

  lemma Filled(n: nat, count: nat)
    requires count == n % 64
    ensures (n + (64 - count)) % 64 == 0
  {
  }

  lemma Regrouped(m: seq<byte>, one: seq<byte>, z: seq<byte>, a: seq<byte>, b: seq<byte>)
    ensures m + one + (z + a + b) == m + (one + (z + (a + b)))
  {
    assert z + a + b == z + (a + b);
    assert m + one + (z + (a + b)) == m + (one + (z + (a + b)));
  }

  /** Both branches of the padding code spell the padding of RFC 1321. */
  lemma PaddingSplit(n: nat)
    ensures var left := 63 - n % 64;
            Padding(n) == if left < 8 then [0x80] + Zeros(left) + (Zeros(56) + LengthOctets(n))
                          else [0x80] + Zeros(left - 8) + LengthOctets(n)
  {
    hide LengthOctets;
    var left := 63 - n % 64;
    assert (55 - n) % 64 == if left < 8 then left + 56 else left - 8;
    if left < 8 { assert Zeros(left) + Zeros(56) == Zeros(left + 56); }
  }

  /** What the machine reads after reversing its own octets of a word. */
  lemma ReversedOctets(big: bool, b: seq<byte>, w: uint32)
    requires |b| == 4 && NativeWord(big, b) == LittleEndian(NativeBytes(big, w))
    ensures b == LeBytes(w)
  {
    hide LittleEndian, BigEndian, LeBytes, BeBytes;
    SwappedOrder(w);
    WordsDetermineOctets(b, LeBytes(w));
  }

  lemma FourSlices(p: seq<byte>, q: seq<byte>, r: seq<byte>, t: seq<byte>)
    requires |p| == |q| == |r| == |t| == 4
    ensures var s := p + q + r + t; s[0..4] == p && s[4..8] == q && s[8..12] == r && s[12..16] == t
  {
  }

  /** Four words stored by the machine and reversed are spelt low octet first. */
  lemma ReversedWords(big: bool, after: seq<byte>, a: uint32, b: uint32, c: uint32, d: uint32)
    requires ReadsAs(big, after, NativeBytes(big, a) + NativeBytes(big, b) + NativeBytes(big, c)
                                 + NativeBytes(big, d), 4)
    ensures after == LeBytes(a) + LeBytes(b) + LeBytes(c) + LeBytes(d)
  {
    hide LittleEndian, NativeWord, NativeBytes, LeBytes, BigEndian;
    FourSlices(NativeBytes(big, a), NativeBytes(big, b), NativeBytes(big, c), NativeBytes(big, d));
    var k0, k1, k2, k3 := 0, 1, 2, 3;
    ReversedOctets(big, after[4 * k0..4 * k0 + 4], a);
    ReversedOctets(big, after[4 * k1..4 * k1 + 4], b);
    ReversedOctets(big, after[4 * k2..4 * k2 + 4], c);
    ReversedOctets(big, after[4 * k3..4 * k3 + 4], d);
    assert after == after[0..4] + after[4..8] + after[8..12] + after[12..16];
  }

  /** The state words as the machine stores them, then reversed: low octet first. */
  method NativeDigest(big: bool, s: State) returns (digest: seq<byte>)
    ensures digest == StateBytes(s)
  {
    hide LeBytes, Number, NativeBytes, ReadsAs;
    var raw := new byte[16](_ => 0);
    var octets := NativeBytes(big, Number(s.a)) + NativeBytes(big, Number(s.b))
                  + NativeBytes(big, Number(s.c)) + NativeBytes(big, Number(s.d));
    Copy(raw, 0, octets);
    assert raw[..] == octets;
    ByteReverse(big, raw, 4);
    ReversedWords(big, raw[..], Number(s.a), Number(s.b), Number(s.c), Number(s.d));
    digest := raw[..];
  }

  // ---------------------------------------------------------------------

  /** `bin2str`. */
  method BinToString(p: seq<byte>) returns (to: string)
    ensures to == Hex(p)
  {
    to := "";
    for i := 0 to |p|
      invariant to == Hex(p[..i])
    {
      assert p[..i + 1][..i] == p[..i];
      to := to + [HexDigit(p[i] / 16), HexDigit(p[i] % 16)];
    }
    assert p[..|p|] == p;
  }

  /** `mg_md5`: the hex digest of a list of strings taken together. */
  method MgMd5(bigEndian: bool, parts: seq<seq<byte>>) returns (hex: string)
    requires forall i :: 0 <= i < |parts| ==> |parts[i]| < TWO32
    ensures hex == Hex(Digest(Concat(parts)))
  {
    hide Digest, Hex, Absorbed, Counts, Compress;
    var ctx := new Context(bigEndian);
    for i := 0 to |parts|
      invariant ctx.Valid() && fresh(ctx) && fresh(ctx.input) && ctx.message == Concat(parts[..i])
    {
      assert parts[..i + 1][..i] == parts[..i];
      ctx.Update(parts[i]);
    }
    assert parts[..|parts|] == parts;
    var hash := ctx.Final();
    hex := BinToString(hash);
  }
}
