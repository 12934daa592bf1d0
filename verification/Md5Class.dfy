/** The class `MD5` of the server. */
module Md5Class {
  import opened BitOps
  import opened Words
  import opened BlockStream
  import opened Rfc1321

  function FF(a: bv32, b: bv32, c: bv32, d: bv32, x: bv32, s: nat, ac: uint32): (r: bv32)
    requires 0 < s < 32
  {
    Plus(Rotl(Total(a, F(b, c, d), x, Bits(ac)), s), b)
  }

  lemma FFIsNewWord(a: bv32, b: bv32, c: bv32, d: bv32, x: bv32, s: nat, ac: uint32)
    requires 0 < s < 32
    ensures FF(a, b, c, d, x, s, ac) == NewWord(a, b, F(b, c, d), x, ac, s)
  {
    hide Rotl, F, Bits, Plus, Total;
    PlusCommutes(b, Rotl(Total(a, F(b, c, d), x, Bits(ac)), s));
  }

  lemma FFNext(x: seq<bv32>, i: nat, h: State, a: bv32, b: bv32, c: bv32, d: bv32, k: nat, s: nat, t: uint32)
    requires |x| == 16 && i / 16 == 0 && State(a, b, c, d) == Steps(x, i, h)
    requires k == Word(i) && s == Shift(i) && t == T(i)
    ensures State(d, FF(a, b, c, d, x[k], s, t), b, c) == Steps(x, i + 1, h)
  {
    hide FF, NewWord, F, Steps, Word, Shift, T;
    StepsNext(x, i, h);
    FFIsNewWord(a, b, c, d, x[k], s, t);
  }

  function GG(a: bv32, b: bv32, c: bv32, d: bv32, x: bv32, s: nat, ac: uint32): (r: bv32)
    requires 0 < s < 32
  {
    Plus(Rotl(Total(a, G(b, c, d), x, Bits(ac)), s), b)
  }

  lemma GGIsNewWord(a: bv32, b: bv32, c: bv32, d: bv32, x: bv32, s: nat, ac: uint32)
    requires 0 < s < 32
    ensures GG(a, b, c, d, x, s, ac) == NewWord(a, b, G(b, c, d), x, ac, s)
  {
    hide Rotl, G, Bits, Plus, Total;
    PlusCommutes(b, Rotl(Total(a, G(b, c, d), x, Bits(ac)), s));
  }

  lemma GGNext(x: seq<bv32>, i: nat, h: State, a: bv32, b: bv32, c: bv32, d: bv32, k: nat, s: nat, t: uint32)
    requires |x| == 16 && i / 16 == 1 && State(a, b, c, d) == Steps(x, i, h)
    requires k == Word(i) && s == Shift(i) && t == T(i)
    ensures State(d, GG(a, b, c, d, x[k], s, t), b, c) == Steps(x, i + 1, h)
  {
    hide GG, NewWord, G, Steps, Word, Shift, T;
    StepsNext(x, i, h);
    GGIsNewWord(a, b, c, d, x[k], s, t);
  }

  function HH(a: bv32, b: bv32, c: bv32, d: bv32, x: bv32, s: nat, ac: uint32): (r: bv32)
    requires 0 < s < 32
  {
    Plus(Rotl(Total(a, H(b, c, d), x, Bits(ac)), s), b)
  }

  lemma HHIsNewWord(a: bv32, b: bv32, c: bv32, d: bv32, x: bv32, s: nat, ac: uint32)
    requires 0 < s < 32
    ensures HH(a, b, c, d, x, s, ac) == NewWord(a, b, H(b, c, d), x, ac, s)
  {
    hide Rotl, H, Bits, Plus, Total;
    PlusCommutes(b, Rotl(Total(a, H(b, c, d), x, Bits(ac)), s));
  }

  lemma HHNext(x: seq<bv32>, i: nat, h: State, a: bv32, b: bv32, c: bv32, d: bv32, k: nat, s: nat, t: uint32)
    requires |x| == 16 && i / 16 == 2 && State(a, b, c, d) == Steps(x, i, h)
    requires k == Word(i) && s == Shift(i) && t == T(i)
    ensures State(d, HH(a, b, c, d, x[k], s, t), b, c) == Steps(x, i + 1, h)
  {
    hide HH, NewWord, H, Steps, Word, Shift, T;
    StepsNext(x, i, h);
    HHIsNewWord(a, b, c, d, x[k], s, t);
  }

  function II(a: bv32, b: bv32, c: bv32, d: bv32, x: bv32, s: nat, ac: uint32): (r: bv32)
    requires 0 < s < 32
  {
    Plus(Rotl(Total(a, I(b, c, d), x, Bits(ac)), s), b)
  }

  lemma IIIsNewWord(a: bv32, b: bv32, c: bv32, d: bv32, x: bv32, s: nat, ac: uint32)
    requires 0 < s < 32
    ensures II(a, b, c, d, x, s, ac) == NewWord(a, b, I(b, c, d), x, ac, s)
  {
    hide Rotl, I, Bits, Plus, Total;
    PlusCommutes(b, Rotl(Total(a, I(b, c, d), x, Bits(ac)), s));
  }

  lemma IINext(x: seq<bv32>, i: nat, h: State, a: bv32, b: bv32, c: bv32, d: bv32, k: nat, s: nat, t: uint32)
    requires |x| == 16 && i / 16 == 3 && State(a, b, c, d) == Steps(x, i, h)
    requires k == Word(i) && s == Shift(i) && t == T(i)
    ensures State(d, II(a, b, c, d, x[k], s, t), b, c) == Steps(x, i + 1, h)
  {
    hide II, NewWord, I, Steps, Word, Shift, T;
    StepsNext(x, i, h);
    IIIsNewWord(a, b, c, d, x[k], s, t);
  }

  /** The first eight steps of round 1. */
  method Round1First(x: seq<bv32>, ghost h: State, a0: bv32, b0: bv32, c0: bv32, d0: bv32)
    returns (a: bv32, b: bv32, c: bv32, d: bv32)
    requires |x| == 16 && State(a0, b0, c0, d0) == Steps(x, 0, h)
    ensures State(a, b, c, d) == Steps(x, 8, h)
  {
    hide *;
    Row1();
    a, b, c, d := a0, b0, c0, d0;
    FFNext(x, 0, h, a, b, c, d, 0, 7, 0xd76aa478);
    a := FF(a, b, c, d, x[0], 7, 0xd76aa478);
    FFNext(x, 1, h, d, a, b, c, 1, 12, 0xe8c7b756);
    d := FF(d, a, b, c, x[1], 12, 0xe8c7b756);
    FFNext(x, 2, h, c, d, a, b, 2, 17, 0x242070db);
    c := FF(c, d, a, b, x[2], 17, 0x242070db);
    FFNext(x, 3, h, b, c, d, a, 3, 22, 0xc1bdceee);
    b := FF(b, c, d, a, x[3], 22, 0xc1bdceee);
    FFNext(x, 4, h, a, b, c, d, 4, 7, 0xf57c0faf);
    a := FF(a, b, c, d, x[4], 7, 0xf57c0faf);
    FFNext(x, 5, h, d, a, b, c, 5, 12, 0x4787c62a);
    d := FF(d, a, b, c, x[5], 12, 0x4787c62a);
    FFNext(x, 6, h, c, d, a, b, 6, 17, 0xa8304613);
    c := FF(c, d, a, b, x[6], 17, 0xa8304613);
    FFNext(x, 7, h, b, c, d, a, 7, 22, 0xfd469501);
    b := FF(b, c, d, a, x[7], 22, 0xfd469501);
  }

  /** The last eight. */
  method Round1Last(x: seq<bv32>, ghost h: State, a0: bv32, b0: bv32, c0: bv32, d0: bv32)
    returns (a: bv32, b: bv32, c: bv32, d: bv32)
    requires |x| == 16 && State(a0, b0, c0, d0) == Steps(x, 8, h)
    ensures State(a, b, c, d) == Steps(x, 16, h)
  {
    hide *;
    Row1();
    a, b, c, d := a0, b0, c0, d0;
    FFNext(x, 8, h, a, b, c, d, 8, 7, 0x698098d8);
    a := FF(a, b, c, d, x[8], 7, 0x698098d8);
    FFNext(x, 9, h, d, a, b, c, 9, 12, 0x8b44f7af);
    d := FF(d, a, b, c, x[9], 12, 0x8b44f7af);
    FFNext(x, 10, h, c, d, a, b, 10, 17, 0xffff5bb1);
    c := FF(c, d, a, b, x[10], 17, 0xffff5bb1);
    FFNext(x, 11, h, b, c, d, a, 11, 22, 0x895cd7be);
    b := FF(b, c, d, a, x[11], 22, 0x895cd7be);
    FFNext(x, 12, h, a, b, c, d, 12, 7, 0x6b901122);
    a := FF(a, b, c, d, x[12], 7, 0x6b901122);
    FFNext(x, 13, h, d, a, b, c, 13, 12, 0xfd987193);
    d := FF(d, a, b, c, x[13], 12, 0xfd987193);
    FFNext(x, 14, h, c, d, a, b, 14, 17, 0xa679438e);
    c := FF(c, d, a, b, x[14], 17, 0xa679438e);
    FFNext(x, 15, h, b, c, d, a, 15, 22, 0x49b40821);
    b := FF(b, c, d, a, x[15], 22, 0x49b40821);
  }

  /** Round 1 of `transform`. */
  method Round1(x: seq<bv32>, ghost h: State, a0: bv32, b0: bv32, c0: bv32, d0: bv32)
    returns (a: bv32, b: bv32, c: bv32, d: bv32)
    requires |x| == 16 && State(a0, b0, c0, d0) == Steps(x, 0, h)
    ensures State(a, b, c, d) == Steps(x, 16, h)
  {
    hide *;
    a, b, c, d := Round1First(x, h, a0, b0, c0, d0);
    a, b, c, d := Round1Last(x, h, a, b, c, d);
  }

  /** The first eight steps of round 2. */
  method Round2First(x: seq<bv32>, ghost h: State, a0: bv32, b0: bv32, c0: bv32, d0: bv32)
    returns (a: bv32, b: bv32, c: bv32, d: bv32)
    requires |x| == 16 && State(a0, b0, c0, d0) == Steps(x, 16, h)
    ensures State(a, b, c, d) == Steps(x, 24, h)
  {
    hide *;
    Row2();
    a, b, c, d := a0, b0, c0, d0;
    GGNext(x, 16, h, a, b, c, d, 1, 5, 0xf61e2562);
    a := GG(a, b, c, d, x[1], 5, 0xf61e2562);
    GGNext(x, 17, h, d, a, b, c, 6, 9, 0xc040b340);
    d := GG(d, a, b, c, x[6], 9, 0xc040b340);
    GGNext(x, 18, h, c, d, a, b, 11, 14, 0x265e5a51);
    c := GG(c, d, a, b, x[11], 14, 0x265e5a51);
    GGNext(x, 19, h, b, c, d, a, 0, 20, 0xe9b6c7aa);
    b := GG(b, c, d, a, x[0], 20, 0xe9b6c7aa);
    GGNext(x, 20, h, a, b, c, d, 5, 5, 0xd62f105d);
    a := GG(a, b, c, d, x[5], 5, 0xd62f105d);
    GGNext(x, 21, h, d, a, b, c, 10, 9, 0x2441453);
    d := GG(d, a, b, c, x[10], 9, 0x2441453);
    GGNext(x, 22, h, c, d, a, b, 15, 14, 0xd8a1e681);
    c := GG(c, d, a, b, x[15], 14, 0xd8a1e681);
    GGNext(x, 23, h, b, c, d, a, 4, 20, 0xe7d3fbc8);
    b := GG(b, c, d, a, x[4], 20, 0xe7d3fbc8);
  }

  /** The last eight. */
  method Round2Last(x: seq<bv32>, ghost h: State, a0: bv32, b0: bv32, c0: bv32, d0: bv32)
    returns (a: bv32, b: bv32, c: bv32, d: bv32)
    requires |x| == 16 && State(a0, b0, c0, d0) == Steps(x, 24, h)
    ensures State(a, b, c, d) == Steps(x, 32, h)
  {
    hide *;
    Row2();
    a, b, c, d := a0, b0, c0, d0;
    GGNext(x, 24, h, a, b, c, d, 9, 5, 0x21e1cde6);
    a := GG(a, b, c, d, x[9], 5, 0x21e1cde6);
    GGNext(x, 25, h, d, a, b, c, 14, 9, 0xc33707d6);
    d := GG(d, a, b, c, x[14], 9, 0xc33707d6);
    GGNext(x, 26, h, c, d, a, b, 3, 14, 0xf4d50d87);
    c := GG(c, d, a, b, x[3], 14, 0xf4d50d87);
    GGNext(x, 27, h, b, c, d, a, 8, 20, 0x455a14ed);
    b := GG(b, c, d, a, x[8], 20, 0x455a14ed);
    GGNext(x, 28, h, a, b, c, d, 13, 5, 0xa9e3e905);
    a := GG(a, b, c, d, x[13], 5, 0xa9e3e905);
    GGNext(x, 29, h, d, a, b, c, 2, 9, 0xfcefa3f8);
    d := GG(d, a, b, c, x[2], 9, 0xfcefa3f8);
    GGNext(x, 30, h, c, d, a, b, 7, 14, 0x676f02d9);
    c := GG(c, d, a, b, x[7], 14, 0x676f02d9);
    GGNext(x, 31, h, b, c, d, a, 12, 20, 0x8d2a4c8a);
    b := GG(b, c, d, a, x[12], 20, 0x8d2a4c8a);
  }

  /** Round 2 of `transform`. */
  method Round2(x: seq<bv32>, ghost h: State, a0: bv32, b0: bv32, c0: bv32, d0: bv32)
    returns (a: bv32, b: bv32, c: bv32, d: bv32)
    requires |x| == 16 && State(a0, b0, c0, d0) == Steps(x, 16, h)
    ensures State(a, b, c, d) == Steps(x, 32, h)
  {
    hide *;
    a, b, c, d := Round2First(x, h, a0, b0, c0, d0);
    a, b, c, d := Round2Last(x, h, a, b, c, d);
  }

  /** The first eight steps of round 3. */
  method Round3First(x: seq<bv32>, ghost h: State, a0: bv32, b0: bv32, c0: bv32, d0: bv32)
    returns (a: bv32, b: bv32, c: bv32, d: bv32)
    requires |x| == 16 && State(a0, b0, c0, d0) == Steps(x, 32, h)
    ensures State(a, b, c, d) == Steps(x, 40, h)
  {
    hide *;
    Row3();
    a, b, c, d := a0, b0, c0, d0;
    HHNext(x, 32, h, a, b, c, d, 5, 4, 0xfffa3942);
    a := HH(a, b, c, d, x[5], 4, 0xfffa3942);
    HHNext(x, 33, h, d, a, b, c, 8, 11, 0x8771f681);
    d := HH(d, a, b, c, x[8], 11, 0x8771f681);
    HHNext(x, 34, h, c, d, a, b, 11, 16, 0x6d9d6122);
    c := HH(c, d, a, b, x[11], 16, 0x6d9d6122);
    HHNext(x, 35, h, b, c, d, a, 14, 23, 0xfde5380c);
    b := HH(b, c, d, a, x[14], 23, 0xfde5380c);
    HHNext(x, 36, h, a, b, c, d, 1, 4, 0xa4beea44);
    a := HH(a, b, c, d, x[1], 4, 0xa4beea44);
    HHNext(x, 37, h, d, a, b, c, 4, 11, 0x4bdecfa9);
    d := HH(d, a, b, c, x[4], 11, 0x4bdecfa9);
    HHNext(x, 38, h, c, d, a, b, 7, 16, 0xf6bb4b60);
    c := HH(c, d, a, b, x[7], 16, 0xf6bb4b60);
    HHNext(x, 39, h, b, c, d, a, 10, 23, 0xbebfbc70);
    b := HH(b, c, d, a, x[10], 23, 0xbebfbc70);
  }

  /** The last eight. */
  method Round3Last(x: seq<bv32>, ghost h: State, a0: bv32, b0: bv32, c0: bv32, d0: bv32)
    returns (a: bv32, b: bv32, c: bv32, d: bv32)
    requires |x| == 16 && State(a0, b0, c0, d0) == Steps(x, 40, h)
    ensures State(a, b, c, d) == Steps(x, 48, h)
  {
    hide *;
    Row3();
    a, b, c, d := a0, b0, c0, d0;
    HHNext(x, 40, h, a, b, c, d, 13, 4, 0x289b7ec6);
    a := HH(a, b, c, d, x[13], 4, 0x289b7ec6);
    HHNext(x, 41, h, d, a, b, c, 0, 11, 0xeaa127fa);
    d := HH(d, a, b, c, x[0], 11, 0xeaa127fa);
    HHNext(x, 42, h, c, d, a, b, 3, 16, 0xd4ef3085);
    c := HH(c, d, a, b, x[3], 16, 0xd4ef3085);
    HHNext(x, 43, h, b, c, d, a, 6, 23, 0x4881d05);
    b := HH(b, c, d, a, x[6], 23, 0x4881d05);
    HHNext(x, 44, h, a, b, c, d, 9, 4, 0xd9d4d039);
    a := HH(a, b, c, d, x[9], 4, 0xd9d4d039);
    HHNext(x, 45, h, d, a, b, c, 12, 11, 0xe6db99e5);
    d := HH(d, a, b, c, x[12], 11, 0xe6db99e5);
    HHNext(x, 46, h, c, d, a, b, 15, 16, 0x1fa27cf8);
    c := HH(c, d, a, b, x[15], 16, 0x1fa27cf8);
    HHNext(x, 47, h, b, c, d, a, 2, 23, 0xc4ac5665);
    b := HH(b, c, d, a, x[2], 23, 0xc4ac5665);
  }

  /** Round 3 of `transform`. */
  method Round3(x: seq<bv32>, ghost h: State, a0: bv32, b0: bv32, c0: bv32, d0: bv32)
    returns (a: bv32, b: bv32, c: bv32, d: bv32)
    requires |x| == 16 && State(a0, b0, c0, d0) == Steps(x, 32, h)
    ensures State(a, b, c, d) == Steps(x, 48, h)
  {
    hide *;
    a, b, c, d := Round3First(x, h, a0, b0, c0, d0);
    a, b, c, d := Round3Last(x, h, a, b, c, d);
  }

  /** The first eight steps of round 4. */
  method Round4First(x: seq<bv32>, ghost h: State, a0: bv32, b0: bv32, c0: bv32, d0: bv32)
    returns (a: bv32, b: bv32, c: bv32, d: bv32)
    requires |x| == 16 && State(a0, b0, c0, d0) == Steps(x, 48, h)
    ensures State(a, b, c, d) == Steps(x, 56, h)
  {
    hide *;
    Row4();
    a, b, c, d := a0, b0, c0, d0;
    IINext(x, 48, h, a, b, c, d, 0, 6, 0xf4292244);
    a := II(a, b, c, d, x[0], 6, 0xf4292244);
    IINext(x, 49, h, d, a, b, c, 7, 10, 0x432aff97);
    d := II(d, a, b, c, x[7], 10, 0x432aff97);
    IINext(x, 50, h, c, d, a, b, 14, 15, 0xab9423a7);
    c := II(c, d, a, b, x[14], 15, 0xab9423a7);
    IINext(x, 51, h, b, c, d, a, 5, 21, 0xfc93a039);
    b := II(b, c, d, a, x[5], 21, 0xfc93a039);
    IINext(x, 52, h, a, b, c, d, 12, 6, 0x655b59c3);
    a := II(a, b, c, d, x[12], 6, 0x655b59c3);
    IINext(x, 53, h, d, a, b, c, 3, 10, 0x8f0ccc92);
    d := II(d, a, b, c, x[3], 10, 0x8f0ccc92);
    IINext(x, 54, h, c, d, a, b, 10, 15, 0xffeff47d);
    c := II(c, d, a, b, x[10], 15, 0xffeff47d);
    IINext(x, 55, h, b, c, d, a, 1, 21, 0x85845dd1);
    b := II(b, c, d, a, x[1], 21, 0x85845dd1);
  }

  /** The last eight. */
  method Round4Last(x: seq<bv32>, ghost h: State, a0: bv32, b0: bv32, c0: bv32, d0: bv32)
    returns (a: bv32, b: bv32, c: bv32, d: bv32)
    requires |x| == 16 && State(a0, b0, c0, d0) == Steps(x, 56, h)
    ensures State(a, b, c, d) == Steps(x, 64, h)
  {
    hide *;
    Row4();
    a, b, c, d := a0, b0, c0, d0;
    IINext(x, 56, h, a, b, c, d, 8, 6, 0x6fa87e4f);
    a := II(a, b, c, d, x[8], 6, 0x6fa87e4f);
    IINext(x, 57, h, d, a, b, c, 15, 10, 0xfe2ce6e0);
    d := II(d, a, b, c, x[15], 10, 0xfe2ce6e0);
    IINext(x, 58, h, c, d, a, b, 6, 15, 0xa3014314);
    c := II(c, d, a, b, x[6], 15, 0xa3014314);
    IINext(x, 59, h, b, c, d, a, 13, 21, 0x4e0811a1);
    b := II(b, c, d, a, x[13], 21, 0x4e0811a1);
    IINext(x, 60, h, a, b, c, d, 4, 6, 0xf7537e82);
    a := II(a, b, c, d, x[4], 6, 0xf7537e82);
    IINext(x, 61, h, d, a, b, c, 11, 10, 0xbd3af235);
    d := II(d, a, b, c, x[11], 10, 0xbd3af235);
    IINext(x, 62, h, c, d, a, b, 2, 15, 0x2ad7d2bb);
    c := II(c, d, a, b, x[2], 15, 0x2ad7d2bb);
    IINext(x, 63, h, b, c, d, a, 9, 21, 0xeb86d391);
    b := II(b, c, d, a, x[9], 21, 0xeb86d391);
  }

  /** Round 4 of `transform`. */
  method Round4(x: seq<bv32>, ghost h: State, a0: bv32, b0: bv32, c0: bv32, d0: bv32)
    returns (a: bv32, b: bv32, c: bv32, d: bv32)
    requires |x| == 16 && State(a0, b0, c0, d0) == Steps(x, 48, h)
    ensures State(a, b, c, d) == Steps(x, 64, h)
  {
    hide *;
    a, b, c, d := Round4First(x, h, a0, b0, c0, d0);
    a, b, c, d := Round4Last(x, h, a, b, c, d);
  }

  /** `decode`: octets to words, low octet first. */
  method Decode(input: Block) returns (x: seq<bv32>)
    ensures x == WordsOf(input)
  {
    hide Bits, FromOctets;
    x := [];
    for i := 0 to 16
      invariant x == WordsOf(input)[..i]
    {
      var j := 4 * i;
      SpelledOut(input[j..j + 4]);
      x := x + [Bits(FromOctets(input[j], input[j + 1], input[j + 2], input[j + 3]))];
    }
  }

  /** The shifts and ors of `decode` read a word low octet first. */
  lemma SpelledOut(b: seq<byte>)
    requires |b| == 4
    ensures FromOctets(b[0], b[1], b[2], b[3]) == LittleEndian(b)
  {
    hide FromOctets;
  }

  function EncodeAll(words: seq<uint32>): (b: seq<byte>) {
    if words == [] then [] else EncodeAll(words[..|words| - 1]) + LeBytes(words[|words| - 1])
  }

  /** The shifts and masks of `encode` write a word low octet first. */
  lemma CutUp(w: uint32)
    ensures [OctetAt(w, 0), OctetAt(w, 1), OctetAt(w, 2), OctetAt(w, 3)] == LeBytes(w)
  {
    hide OctetAt;
  }

  /** `encode`: words to octets, low octet first. */
  method Encode(words: seq<uint32>) returns (b: seq<byte>)
    ensures b == EncodeAll(words)
  {
    b := [];
    for i := 0 to |words|
      invariant b == EncodeAll(words[..i])
    {
      assert words[..i + 1][..i] == words[..i];
      var w := words[i];
      CutUp(w);
      b := b + [OctetAt(w, 0), OctetAt(w, 1), OctetAt(w, 2), OctetAt(w, 3)];
    }
    assert words[..|words|] == words;
  }

  lemma EncodeTwo(a: uint32, b: uint32)
    ensures EncodeAll([a, b]) == LeBytes(a) + LeBytes(b)
  {
    hide LeBytes;
    assert [a, b][..1] == [a] && [a][..0] == [];
    assert EncodeAll([a]) == [] + LeBytes(a) == LeBytes(a);
  }

  lemma EncodeFour(a: uint32, b: uint32, c: uint32, d: uint32)
    ensures EncodeAll([a, b, c, d]) == LeBytes(a) + LeBytes(b) + LeBytes(c) + LeBytes(d)
  {
    hide LeBytes;
    assert [a, b, c, d][..3] == [a, b, c] && [a, b, c][..2] == [a, b];
    EncodeTwo(a, b);
  }

  class MD5 {
    var finalized: bool
    const buffer: array<byte>
    var count0: uint32
    var count1: uint32
    var state: State
    var digest: seq<byte>
    ghost var start: State           // the chaining value before `message`
    ghost var message: seq<byte>     // the octets counted so far

    /** The object depends only on the octets it was given: the state is the fold over
        their whole blocks, the buffer begins with the rest, and the two count words
        hold their number in bits modulo 2^64. */
    ghost predicate Valid()
      reads this, buffer
    {
      && buffer.Length == 64
      && Counts(count0, count1, |message|)
      && Absorbed(Compress, start, message, state, buffer[..|message| % 64])
      && (if finalized then |digest| == 16 else start == Initial)
    }

    constructor ()
      ensures Valid() && !finalized && message == [] && fresh(buffer)
    {
      finalized := false;
      buffer := new byte[64](_ => 0);
      count0, count1 := 0, 0;
      state := State(0x67452301, 0xefcdab89, 0x98badcfe, 0x10325476);
      digest := [];
      start := Initial;
      message := [];
      new;
      assert message[..0] == [] && buffer[..0] == [];
    }

    method Transform(block: Block)
      modifies this`state
      ensures state == Compress(old(state), block)
    {
      hide Steps, WordsOf, Add;
      var x := Decode(block);
      var h := state;
      StepsNone(x, h);
      var a, b, c, d := Round1(x, h, h.a, h.b, h.c, h.d);
      a, b, c, d := Round2(x, h, a, b, c, d);
      a, b, c, d := Round3(x, h, a, b, c, d);
      a, b, c, d := Round4(x, h, a, b, c, d);
      state := Add(h, State(a, b, c, d));
    }

    /** The two count words after `length` more octets. */
    method Tick(length: uint32)
      modifies this`count0, this`count1
      ensures count0 == LowAfter(old(count0), length)
      ensures count1 == HighAfter(old(count0), old(count1), length)
    {
      var low := length * 8 % TWO32;
      CarryTest(count0, low);
      AddTwice(count1 + 1, length / 0x2000_0000);
      count0 := (count0 + low) % TWO32;
      if count0 < low { count1 := (count1 + 1) % TWO32; }
      count1 := (count1 + length / 0x2000_0000) % TWO32;
    }

    /** The loop of `update` over the whole blocks of the input. */
    method TransformBlocks(input: seq<byte>, first: nat, ghost m: seq<byte>) returns (i: nat)
      requires |input| <= 0xFFFF_FFBF && first <= |input|
      requires Absorbed(Compress, start, m + input[..first], state, [])
      modifies this`state
      ensures first <= i <= |input| < i + 64
      ensures Absorbed(Compress, start, m + input[..i], state, [])
    {
      hide Compress, Absorbed;
      i := first;
      while (i + 64) % TWO32 <= |input|
        invariant first <= i <= |input|
        invariant Absorbed(Compress, start, m + input[..i], state, [])
        decreases |input| - i
      {
        var block := input[i..i + 64];
        AbsorbFill(Compress, start, m + input[..i], state, [], block);
        assert [] + block == block;
        assert m + input[..i] + block == m + input[..i + 64];
        Transform(block);
        i := (i + 64) % TWO32;
      }
    }

    /** Fill the buffer up to a block and transform it. */
    method Fill(index: nat, part: seq<byte>, ghost m: seq<byte>)
      requires buffer.Length == 64 && index + |part| == 64
      requires Absorbed(Compress, start, m, state, buffer[..index])
      modifies this`state, buffer
      ensures Absorbed(Compress, start, m + part, state, [])
    {
      hide Compress, Absorbed;
      AbsorbFill(Compress, start, m, state, buffer[..index], part);
      Copy(buffer, index, part);
      assert buffer[..] == old(buffer[..index]) + part;
      Transform(buffer[..]);
    }

    /** Buffer the remaining input. */
    method Keep(index: nat, rest: seq<byte>, ghost m: seq<byte>)
      requires buffer.Length == 64 && index + |rest| < 64
      requires Absorbed(Compress, start, m, state, buffer[..index])
      modifies buffer
      ensures Absorbed(Compress, start, m + rest, state, buffer[..|m + rest| % 64])
    {
      hide Compress, Absorbed;
      AbsorbShort(Compress, start, m, state, buffer[..index], rest);
      AbsorbedTail(Compress, start, m + rest, state, buffer[..index] + rest);
      Copy(buffer, index, rest);
      assert buffer[..index + |rest|] == old(buffer[..index]) + rest;
    }

    /** The buffering part of `update`: `index` octets of `m` are in the buffer. */
    method Absorb(index: nat, input: seq<byte>, ghost m: seq<byte>)
      requires buffer.Length == 64 && |input| <= 0xFFFF_FFBF && index == |m| % 64
      requires Absorbed(Compress, start, m, state, buffer[..index])
      modifies this`state, buffer
      ensures Absorbed(Compress, start, m + input, state, buffer[..|m + input| % 64])
    {
      hide Compress, Absorbed;
      var firstpart, at, i := 64 - index, index, 0;
      if |input| >= firstpart {
        Fill(index, input[..firstpart], m);
        i := TransformBlocks(input, firstpart, m);
        at := 0;
        assert buffer[..0] == [];
      } else {
        assert m + input[..0] == m;
      }
      Keep(at, input[i..], m + input[..i]);
      assert m + input[..i] + input[i..] == m + input;
    }

    /** `update`: what the object was given grows by the input, however it is cut up. */
    method Update(input: seq<byte>)
      requires Valid() && |input| <= 0xFFFF_FFBF
      modifies this, buffer
      ensures Valid() && message == old(message) + input
      ensures start == old(start) && finalized == old(finalized) && digest == old(digest)
    {
      hide Absorbed, Counts, Compress, LowAfter, HighAfter;
      CountIndex(count0, count1, |message|);
      CountAdds(count0, count1, |message|, |input|);
      var index := count0 / 8 % 64;
      Tick(|input|);
      Absorb(index, input, message);
      message := message + input;
    }

    /** The zeroing at the end of `finalize`; the chaining value stays. */
    method Clear()
      requires buffer.Length == 64 && |digest| == 16
      modifies this`count0, this`count1, this`finalized, this`start, this`message, buffer
      ensures Valid() && finalized
    {
      hide Compress;
      Copy(buffer, 0, Zeros(64));
      count0, count1 := 0, 0;
      finalized := true;
      start, message := state, [];
      assert message[..0] == [] && buffer[..0] == [];
    }

    /** `finalize`: the digest of everything given, and a cleared object. */
    method Finalize()
      requires Valid()
      modifies this, buffer
      ensures Valid() && finalized
      ensures !old(finalized) ==> digest == Digest(old(message))
      ensures old(finalized) ==> digest == old(digest) && message == old(message) && state == old(state)
    {
      hide Compress, Counts, Absorbed, Digest, LeBytes, LengthOctets, Padding, StateBytes, EncodeAll;
      if !finalized {
        ghost var m := message;
        var bits := Encode([count0, count1]);
        CountIndex(count0, count1, |m|);
        LengthOf(count0, count1, |m|);
        EncodeTwo(count0, count1);
        var index := count0 / 8 % 64;
        var padLen := if index < 56 then 56 - index else 120 - index;
        PaddingIs(m, padLen);
        Update(([0x80] + Zeros(63))[..padLen]);
        Update(bits);
        assert message == m + Padding(|m|);
        DigestFrom(m, state, buffer[..|message| % 64]);
        digest := Encode([Number(state.a), Number(state.b), Number(state.c), Number(state.d)]);
        EncodeState(state);
        Clear();
      }
    }

    /** `hexdigest`: two hex digits per octet, or nothing before `finalize`. */
    method HexDigest() returns (text: string)
      requires Valid()
      ensures text == if finalized then Hex(digest) else ""
    {
      if !finalized { return ""; }
      text := "";
      for i := 0 to 16
        invariant text == Hex(digest[..i])
      {
        assert digest[..i + 1][..i] == digest[..i];
        text := text + [HexDigit(digest[i] / 16), HexDigit(digest[i] % 16)];
      }
      assert digest[..16] == digest;
    }
  }

  lemma EncodeState(s: State)
    ensures EncodeAll([Number(s.a), Number(s.b), Number(s.c), Number(s.d)]) == StateBytes(s)
  {
    hide LeBytes, Number, EncodeAll;
    EncodeFour(Number(s.a), Number(s.b), Number(s.c), Number(s.d));
  }

  /** `md5(str)`: the hex digest of a string. */
  method Md5(text: seq<byte>) returns (hex: string)
    requires |text| <= 0xFFFF_FFBF
    ensures hex == Hex(Digest(text))
  {
    hide Digest, Hex;
    var md5 := new MD5();
    md5.Update(text);
    assert md5.message == [] + text == text;
    md5.Finalize();
    hex := md5.HexDigest();
  }
}
