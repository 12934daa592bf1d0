/** The bit operators of C on numbers of `w` bits, bit by bit. */
module BitOps {
  function Pow2(w: nat): (p: nat)
    ensures p > 0
  {
    if w == 0 then 1 else 2 * Pow2(w - 1)
  }

  /** `q << k`, for numbers that stay in range. */
  function Shl(q: nat, k: nat): (r: nat) {
    if k == 0 then q else 2 * Shl(q, k - 1)
  }

  /** `a ^ b`. */
  function XorBits(a: nat, b: nat, w: nat): (r: nat)
    requires a < Pow2(w) && b < Pow2(w)
    ensures r < Pow2(w)
  {
    if w == 0 then 0 else 2 * XorBits(a / 2, b / 2, w - 1) + (a + b) % 2
  }

  /** `a | b`. */
  function OrBits(a: nat, b: nat, w: nat): (r: nat)
    requires a < Pow2(w) && b < Pow2(w)
    ensures r < Pow2(w)
  {
    if w == 0 then 0
    else 2 * OrBits(a / 2, b / 2, w - 1) + if a % 2 == 1 || b % 2 == 1 then 1 else 0
  }

  /** `a & b`. */
  function AndBits(a: nat, b: nat, w: nat): (r: nat)
    requires a < Pow2(w) && b < Pow2(w)
    ensures r < Pow2(w)
  {
    if w == 0 then 0
    else 2 * AndBits(a / 2, b / 2, w - 1) + if a % 2 == 1 && b % 2 == 1 then 1 else 0
  }

  // ---------------------------------------------------------------------
  // Exclusive or twice.

  lemma {:induction false} XorBitsTwice(a: nat, k: nat, w: nat)
    requires a < Pow2(w) && k < Pow2(w)
    ensures XorBits(XorBits(a, k, w), k, w) == a
  {
    if w == 0 {
      assert a == 0;
    } else {
      hide XorBits, Pow2;
      HalfBits(a, w);
      HalfBits(k, w);
      var r := XorBits(a / 2, k / 2, w - 1);
      XorBitsTwice(a / 2, k / 2, w - 1);
      LastBitTwice(a, k, r);
      XorBitsNext(a, k, w);
      var x := XorBits(a, k, w);
      XorBitsNext(x, k, w);
      assert x / 2 == r && (x + k) % 2 == a % 2;
      Rejoined(a);
    }
  }

  lemma Rejoined(a: nat)
    ensures 2 * (a / 2) + a % 2 == a
  {
  }

  lemma HalfBits(a: nat, w: nat)
    requires 0 < w && a < Pow2(w)
    ensures a / 2 < Pow2(w - 1)
  {
  }

  lemma XorBitsNext(a: nat, b: nat, w: nat)
    requires 0 < w && a < Pow2(w) && b < Pow2(w)
    ensures a / 2 < Pow2(w - 1) && b / 2 < Pow2(w - 1)
    ensures XorBits(a, b, w) == 2 * XorBits(a / 2, b / 2, w - 1) + (a + b) % 2
  {
  }

  lemma LastBitTwice(a: nat, k: nat, r: nat)
    ensures (2 * r + (a + k) % 2) / 2 == r
    ensures (2 * r + (a + k) % 2 + k) % 2 == a % 2
  {
  }

  // ---------------------------------------------------------------------
  // Or of numbers that share no bit, and of masks.

  lemma {:induction false} OrZero(b: nat, w: nat)
    requires b < Pow2(w)
    ensures 0 < Pow2(w) && OrBits(0, b, w) == b
  {
    if w > 0 { OrZero(b / 2, w - 1); }
  }

  /** Below bit `k` and from bit `k` on: or is addition. */
  lemma {:induction false} OrAdds(a: nat, q: nat, k: nat, w: nat)
    requires a < Pow2(k) && k <= w && a + Shl(q, k) < Pow2(w)
    ensures OrBits(a, Shl(q, k), w) == a + Shl(q, k)
  {
    if k == 0 {
      OrZero(q, w);
    } else {
      HalfBits(a, k);
      HalfBits(a + Shl(q, k), w);
      var b := Shl(q, k - 1);
      assert Shl(q, k) == 2 * b;
      hide Pow2, OrBits, Shl;
      HalfSum(a, b);
      OrAdds(a / 2, q, k - 1, w - 1);
      OrNext(a, b, w);
      Rejoined(a);
    }
  }

  lemma HalfSum(a: nat, b: nat)
    ensures (a + 2 * b) / 2 == a / 2 + b
  {
  }

  lemma OrNext(a: nat, b: nat, w: nat)
    requires 0 < w && a < Pow2(w) && 2 * b < Pow2(w)
    ensures a / 2 < Pow2(w - 1) && b < Pow2(w - 1)
    ensures OrBits(a, 2 * b, w) == 2 * OrBits(a / 2, b, w - 1) + a % 2
  {
    assert 2 * b / 2 == b;
  }

  /** `r` is what `a` has below bit `k`, and `q` the rest. */
  ghost predicate Cut(a: nat, r: nat, q: nat, k: nat) { r < Pow2(k) && a == r + Shl(q, k) }

  /** A mask of `k` ones keeps what is below bit `k`. */
  lemma {:induction false} AndMask(a: nat, k: nat, w: nat) returns (q: nat)
    requires a < Pow2(w) && k <= w
    ensures Pow2(k) - 1 < Pow2(w) && Cut(a, AndBits(a, Pow2(k) - 1, w), q, k)
  {
    hide AndBits, Cut, Shl, Pow2;
    PowGrows(k, w);
    if k == 0 {
      q := a;
      CutNone(a, w);
    } else {
      HalfBits(a, w);
      q := AndMask(a / 2, k - 1, w - 1);
      AndMaskNext(a, k, w);
      CutNext(a, AndBits(a / 2, Pow2(k - 1) - 1, w - 1), q, k);
    }
  }

  lemma CutIs(a: nat, r: nat, q: nat, k: nat)
    requires Cut(a, r, q, k)
    ensures r < Pow2(k) && a == r + Shl(q, k)
  {
  }

  lemma CutNone(a: nat, w: nat)
    requires a < Pow2(w)
    ensures Pow2(0) == 1 && Cut(a, AndBits(a, 0, w), a, 0)
  {
    AndZero(a, w);
  }

  lemma CutNext(a: nat, r: nat, q: nat, k: nat)
    requires 0 < k && Cut(a / 2, r, q, k - 1)
    ensures Cut(a, 2 * r + a % 2, q, k)
  {
    Doubling(a, r, Shl(q, k - 1), Pow2(k - 1));
  }

  lemma Doubling(a: nat, r: nat, s: nat, p: nat)
    requires a / 2 == r + s && r < p
    ensures a == 2 * r + a % 2 + 2 * s && 2 * r + a % 2 < 2 * p
  {
  }

  lemma {:induction false} PowGrows(k: nat, w: nat)
    requires k <= w
    ensures Pow2(k) <= Pow2(w)
  {
    if k < w { PowGrows(k, w - 1); }
  }

  lemma AndMaskNext(a: nat, k: nat, w: nat)
    requires 0 < k <= w && a < Pow2(w) && Pow2(k) - 1 < Pow2(w)
    ensures a / 2 < Pow2(w - 1) && Pow2(k - 1) - 1 < Pow2(w - 1)
    ensures AndBits(a, Pow2(k) - 1, w) == 2 * AndBits(a / 2, Pow2(k - 1) - 1, w - 1) + a % 2
  {
    hide Pow2, AndBits;
    MaskHalf(k);
    AndNext(a, Pow2(k) - 1, w);
  }

  lemma MaskHalf(k: nat)
    requires 0 < k
    ensures (Pow2(k) - 1) / 2 == Pow2(k - 1) - 1 && (Pow2(k) - 1) % 2 == 1
  {
  }

  lemma AndNext(a: nat, b: nat, w: nat)
    requires 0 < w && a < Pow2(w) && b < Pow2(w)
    ensures a / 2 < Pow2(w - 1) && b / 2 < Pow2(w - 1)
    ensures AndBits(a, b, w) == 2 * AndBits(a / 2, b / 2, w - 1) + if a % 2 == 1 && b % 2 == 1 then 1 else 0
  {
  }

  lemma {:induction false} AndZero(a: nat, w: nat)
    requires a < Pow2(w)
    ensures AndBits(a, 0, w) == 0
  {
    if w > 0 { AndZero(a / 2, w - 1); }
  }

  lemma Powers()
    ensures Pow2(2) == 4 && Pow2(4) == 16 && Pow2(6) == 64 && Pow2(8) == 0x100
    ensures Pow2(16) == 0x1_0000 && Pow2(24) == 0x100_0000 && Pow2(32) == 0x1_0000_0000
  {
    Power8(0);
    Power8(8);
    Power8(16);
    Power8(24);
  }

  lemma Power8(n: nat)
    ensures Pow2(n + 8) == 0x100 * Pow2(n)
  {
    assert Pow2(n + 2) == 4 * Pow2(n);
    assert Pow2(n + 4) == 4 * Pow2(n + 2);
    assert Pow2(n + 6) == 4 * Pow2(n + 4);
    assert Pow2(n + 8) == 4 * Pow2(n + 6);
  }

  lemma Shifts(q: nat)
    ensures Shl(q, 2) == 4 * q && Shl(q, 4) == 16 * q && Shl(q, 6) == 64 * q && Shl(q, 8) == 0x100 * q
    ensures Shl(q, 16) == 0x1_0000 * q && Shl(q, 24) == 0x100_0000 * q
  {
    Shift8(q, 0);
    Shift8(q, 8);
    Shift8(q, 16);
  }

  lemma Shift8(q: nat, n: nat)
    ensures Shl(q, n + 8) == 0x100 * Shl(q, n)
  {
    assert Shl(q, n + 2) == 4 * Shl(q, n);
    assert Shl(q, n + 4) == 4 * Shl(q, n + 2);
    assert Shl(q, n + 6) == 4 * Shl(q, n + 4);
    assert Shl(q, n + 8) == 4 * Shl(q, n + 6);
  }

  // ---------------------------------------------------------------------
  // Octets and words.

  /** `n & 0xFF`. */
  lemma Mask8(n: nat)
    requires n < 0x1_0000_0000
    ensures Pow2(32) == 0x1_0000_0000 && AndBits(n, 0xFF, 32) == n % 0x100
  {
    Powers();
    hide Pow2, AndBits, Shl;
    var q := AndMask(n, 8, 32);
    Shifts(q);
    hide Cut;
    CutIs(n, AndBits(n, Pow2(8) - 1, 32), q, 8);
    Remainder8(n, AndBits(n, Pow2(8) - 1, 32), q);
  }

  lemma Remainder8(n: nat, r: nat, q: nat)
    requires n == r + 0x100 * q && r < 0x100
    ensures n % 0x100 == r
  {
  }

  /** `n & 63`. */
  lemma Mask6(n: nat)
    requires n < 0x1_0000_0000
    ensures Pow2(32) == 0x1_0000_0000 && AndBits(n, 63, 32) == n % 64
  {
    Powers();
    hide Pow2, AndBits, Shl;
    var q := AndMask(n, 6, 32);
    Shifts(q);
    hide Cut;
    CutIs(n, AndBits(n, Pow2(6) - 1, 32), q, 6);
    Remainder6(n, AndBits(n, Pow2(6) - 1, 32), q);
  }

  lemma Remainder6(n: nat, r: nat, q: nat)
    requires n == r + 64 * q && r < 64
    ensures n % 64 == r
  {
  }

  /** `n & 15`. */
  lemma Mask4(n: nat)
    requires n < 0x1_0000_0000
    ensures Pow2(32) == 0x1_0000_0000 && AndBits(n, 15, 32) == n % 16
  {
    Powers();
    hide Pow2, AndBits, Shl;
    var q := AndMask(n, 4, 32);
    Shifts(q);
    hide Cut;
    CutIs(n, AndBits(n, Pow2(4) - 1, 32), q, 4);
    Remainder4(n, AndBits(n, Pow2(4) - 1, 32), q);
  }

  lemma Remainder4(n: nat, r: nat, q: nat)
    requires n == r + 16 * q && r < 16
    ensures n % 16 == r
  {
  }

  /** `n & 3`. */
  lemma Mask2(n: nat)
    requires n < 0x1_0000_0000
    ensures Pow2(32) == 0x1_0000_0000 && AndBits(n, 3, 32) == n % 4
  {
    Powers();
    hide Pow2, AndBits, Shl;
    var q := AndMask(n, 2, 32);
    Shifts(q);
    hide Cut;
    CutIs(n, AndBits(n, Pow2(2) - 1, 32), q, 2);
    Remainder2(n, AndBits(n, Pow2(2) - 1, 32), q);
  }

  lemma Remainder2(n: nat, r: nat, q: nat)
    requires n == r + 4 * q && r < 4
    ensures n % 4 == r
  {
  }

  /** `a | (q << k)` when `a` has `k` bits. */
  lemma Or32(a: nat, q: nat, k: nat)
    requires k in {2, 4, 8, 16, 24} && a < Pow2(k) && a + Shl(q, k) < 0x1_0000_0000
    ensures Pow2(32) == 0x1_0000_0000
    ensures OrBits(a, Shl(q, k), 32) == OrBits(Shl(q, k), a, 32) == a + Shl(q, k)
  {
    Powers();
    hide OrBits, Pow2, Shl;
    OrAdds(a, q, k, 32);
    OrCommutes(a, Shl(q, k), 32);
  }

  lemma {:induction false} OrCommutes(a: nat, b: nat, w: nat)
    requires a < Pow2(w) && b < Pow2(w)
    ensures OrBits(a, b, w) == OrBits(b, a, w)
  {
    if w > 0 { OrCommutes(a / 2, b / 2, w - 1); }
  }

  /** `w >> k`. */
  function Shr(w: nat, k: nat): (r: nat)
    ensures r <= w
  {
    if k == 0 then w else Shr(w, k - 1) / 2
  }

  lemma RightShifts(w: nat)
    ensures Shr(w, 2) == w / 4 && Shr(w, 4) == w / 16 && Shr(w, 6) == w / 64 && Shr(w, 8) == w / 0x100
    ensures Shr(w, 16) == w / 0x1_0000 && Shr(w, 24) == w / 0x100_0000
  {
    RightShift8(w, 0);
    RightShift8(w, 8);
    RightShift8(w, 16);
    RightShift2(w, 0);
    RightShift2(w, 2);
    RightShift2(w, 4);
    Quotients(w);
  }

  lemma RightShift2(w: nat, n: nat)
    ensures Shr(w, n + 2) == Shr(w, n) / 4
  {
    assert Shr(w, n + 2) == Shr(w, n + 1) / 2 && Shr(w, n + 1) == Shr(w, n) / 2;
  }

  lemma RightShift8(w: nat, n: nat)
    ensures Shr(w, n + 8) == Shr(w, n) / 0x100
  {
    RightShift2(w, n);
    RightShift2(w, n + 2);
    RightShift2(w, n + 4);
    RightShift2(w, n + 6);
    Quotients(Shr(w, n));
  }

  lemma Quotients(w: nat)
    ensures w / 4 / 4 == w / 16 && w / 16 / 4 == w / 64 && w / 64 / 4 == w / 0x100
    ensures w / 0x100 / 0x100 == w / 0x1_0000 && w / 0x1_0000 / 0x100 == w / 0x100_0000
  {
  }

  /** `a | (b << 8) | (c << 16) | (d << 24)`. */
  function FromOctets(a: nat, b: nat, c: nat, d: nat): (w: nat)
    requires a < 0x100 && b < 0x100 && c < 0x100 && d < 0x100
    ensures w == a + 0x100 * b + 0x1_0000 * c + 0x100_0000 * d
  {
    Powers();
    Shifts(b);
    Shifts(c);
    Shifts(d);
    hide OrBits, Pow2, Shl;
    Or32(a, b, 8);
    Or32(a + Shl(b, 8), c, 16);
    Or32(a + Shl(b, 8) + Shl(c, 16), d, 24);
    OrBits(OrBits(OrBits(a, Shl(b, 8), 32), Shl(c, 16), 32), Shl(d, 24), 32)
  }

  /** The octets of a word by division. */
  function Quotient(w: nat, k: nat): (r: nat) {
    if k == 0 then w % 0x100
    else if k == 1 then w / 0x100 % 0x100
    else if k == 2 then w / 0x1_0000 % 0x100
    else w / 0x100_0000
  }

  lemma ShiftedOctet(w: nat, k: nat)
    requires w < 0x1_0000_0000 && k < 4
    ensures Shr(w, 8 * k) % 0x100 == Quotient(w, k)
  {
    RightShifts(w);
    hide Shr;
    if k == 0 {
      NoShift(w);
    } else if k == 3 {
      assert w / 0x100_0000 < 0x100;
    }
  }

  lemma NoShift(w: nat)
    ensures Shr(w, 0) == w
  {
  }

  /** `(w >> (8 * k)) & 255`. */
  function OctetAt(w: nat, k: nat): (r: nat)
    requires w < 0x1_0000_0000 && k < 4
    ensures r < 0x100 && r == Quotient(w, k)
  {
    hide AndBits, Pow2, Shr, Quotient;
    ShiftedOctet(w, k);
    Mask8(Shr(w, 8 * k));
    AndBits(Shr(w, 8 * k), 0xFF, 32)
  }

  /** `((a & 3) << 4) | (b >> 4)`. */
  function SecondSextet(a: nat, b: nat): (r: nat)
    requires a < 0x100 && b < 0x100
    ensures r == a % 4 * 16 + b / 16
  {
    RightShifts(b);
    Powers();
    Mask2(a);
    Shifts(a % 4);
    hide AndBits, OrBits, Pow2, Shr, Shl;
    Or32(b / 16, a % 4, 4);
    OrBits(Shl(AndBits(a, 3, 32), 4), Shr(b, 4), 32)
  }

  /** `(b & 15) << 2 | (c >> 6)`. */
  function ThirdSextet(b: nat, c: nat): (r: nat)
    requires b < 0x100 && c < 0x100
    ensures r == b % 16 * 4 + c / 64
  {
    RightShifts(c);
    Powers();
    Mask4(b);
    Shifts(b % 16);
    hide AndBits, OrBits, Pow2, Shr, Shl;
    Or32(c / 64, b % 16, 2);
    OrBits(Shl(AndBits(b, 15, 32), 2), Shr(c, 6), 32)
  }

  // ---------------------------------------------------------------------
  // Fields of a counter and of a frame header.

  /** A mask that ends with a zero leaves the last bit out. */
  lemma AndEven(a: nat, b: nat, w: nat)
    requires 0 < w && a < Pow2(w) && 2 * b < Pow2(w)
    ensures a / 2 < Pow2(w - 1) && b < Pow2(w - 1) && AndBits(a, 2 * b, w) == 2 * AndBits(a / 2, b, w - 1)
  {
    hide AndBits;
    AndNext(a, 2 * b, w);
    assert 2 * b / 2 == b && 2 * b % 2 == 0;
  }

  /** `n & 504`: bits 3 to 8. */
  function Bits3To8(n: nat): (r: nat)
    requires n < 0x1_0000_0000
    ensures r == n / 8 % 64 * 8
  {
    Masked504(n);
    AndBits(n, 504, 32)
  }

  lemma Masked504(n: nat)
    requires n < 0x1_0000_0000
    ensures Pow2(32) == 0x1_0000_0000 && AndBits(n, 504, 32) == n / 8 % 64 * 8
  {
    Powers();
    hide Pow2, AndBits, Shl;
    AndEven(n, 252, 32);
    AndEven(n / 2, 126, 31);
    AndEven(n / 2 / 2, 63, 30);
    assert n / 2 / 2 / 2 == n / 8;
    var q := AndMask(n / 8, 6, 29);
    Shifts(q);
    hide Cut;
    CutIs(n / 8, AndBits(n / 8, Pow2(6) - 1, 29), q, 6);
    Remainder6(n / 8, AndBits(n / 8, Pow2(6) - 1, 29), q);
  }

  /** `b & 127`. */
  function LowBits(b: nat): (r: nat)
    requires b < 0x100
    ensures r == b % 128
  {
    Masked127(b);
    AndBits(b, 127, 8)
  }

  lemma Masked127(b: nat)
    requires b < 0x100
    ensures Pow2(8) == 0x100 && AndBits(b, 127, 8) == b % 128
  {
    Powers();
    assert Pow2(7) == 128 by { assert Pow2(8) == 2 * Pow2(7); }
    hide Pow2, AndBits, Shl;
    var q := AndMask(b, 7, 8);
    Shift7(q);
    hide Cut;
    CutIs(b, AndBits(b, Pow2(7) - 1, 8), q, 7);
    Remainder7(b, AndBits(b, Pow2(7) - 1, 8), q);
  }

  lemma Shift7(q: nat)
    ensures Shl(q, 7) == 128 * q
  {
    Shifts(q);
    assert Shl(q, 8) == 2 * Shl(q, 7);
  }

  lemma Remainder7(n: nat, r: nat, q: nat)
    requires n == r + 128 * q && r < 128
    ensures n % 128 == r
  {
  }

  /** `b & 128`. */
  function HighBit(b: nat): (r: nat)
    requires b < 0x100
    ensures r == if b >= 128 then 128 else 0
  {
    Masked128(b);
    AndBits(b, 128, 8)
  }

  lemma Masked128(b: nat)
    requires b < 0x100
    ensures Pow2(8) == 0x100 && AndBits(b, 128, 8) == if b >= 128 then 128 else 0
  {
    Powers();
    hide Pow2, AndBits;
    AndEven(b, 64, 8);
    AndEven(b / 2, 32, 7);
    AndEven(b / 2 / 2, 16, 6);
    AndEven(b / 2 / 2 / 2, 8, 5);
    AndEven(b / 2 / 2 / 2 / 2, 4, 4);
    AndEven(b / 2 / 2 / 2 / 2 / 2, 2, 3);
    AndEven(b / 2 / 2 / 2 / 2 / 2 / 2, 1, 2);
    assert b / 2 / 2 / 2 / 2 / 2 / 2 / 2 == b / 128;
    LastBit(b / 128);
  }

  lemma LastBit(a: nat)
    requires a < 2
    ensures Pow2(1) == 2 && AndBits(a, 1, 1) == a
  {
  }

  /** `(a << 8) + b`. */
  function Wide(a: nat, b: nat): (r: nat)
    ensures r == 0x100 * a + b
  {
    Shifts(a);
    Shl(a, 8) + b
  }
}
