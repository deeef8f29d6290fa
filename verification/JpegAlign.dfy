/** The alignment macros of kernel-headers/jpeg_drv.h:8-12 on 32-bit unsigned operands. Words are
    numbers below 2^32; & is taken digit by digit in base two. */
module JpegAlign {

  const WORD := 0x1_0000_0000

  type Word = x: int | 0 <= x < 0x1_0000_0000

  /** Bitwise conjunction. */
  function And(x: nat, y: nat): (r: nat)
    ensures r <= x && r <= y
  {
    if x == 0 || y == 0 then 0 else (x % 2) * (y % 2) + 2 * And(x / 2, y / 2)
  }

  /** Bitwise complement on 32 bits. */
  function Not(x: Word): Word { WORD - 1 - x }

  function Add(x: Word, y: Word): Word { (x + y) % WORD }

  function Sub(x: Word, y: Word): Word { (x - y) % WORD }

  /** Rounds x up to a multiple of a, a power of two: adds one less than a, then clears the low bits. */
  function ToCeil(x: Word, a: Word): Word { And(Add(x, Sub(a, 1)), Not(Sub(a, 1))) }

  /** Rounds x down to a multiple of a, a power of two, by clearing the low bits. */
  function ToFloor(x: Word, a: Word): Word { And(x, Not(Sub(a, 1))) }

  /** Keeps the bits of x that are set in the mask a. */
  function ToMask(x: Word, a: Word): Word { And(x, a) }

  /** The last two bits of the predecessor of value. */
  function DunumMapping(value: Word): Word { And(Sub(value, 1), 3) }

  function Pow2(k: nat): (p: nat)
    ensures p >= 1
  {
    if k == 0 then 1 else 2 * Pow2(k - 1)
  }

  predicate PowerOfTwo(a: Word) {
    exists k: nat :: k < 32 && a == Pow2(k)
  }

  /** The digits of x under a mask and under its complement make up x. */
  lemma {:induction false} AndSplits(n: nat, x: nat, m: nat)
    requires x < Pow2(n) && m < Pow2(n)
    ensures And(x, m) + And(x, Pow2(n) - 1 - m) == x
  {
    if n > 0 && x > 0 {
      var c := Pow2(n) - 1 - m;
      assert c / 2 == Pow2(n - 1) - 1 - m / 2 && c % 2 == 1 - m % 2;
      AndSplits(n - 1, x / 2, m / 2);
      AndDigit(x, m);
      AndDigit(x, c);
    }
  }

  lemma {:induction false} AndDigit(x: nat, y: nat)
    ensures And(x, y) == (if x % 2 == 1 && y % 2 == 1 then 1 else 0) + 2 * And(x / 2, y / 2)
  {
  }

  lemma LowMaskDigit(x: nat, p: nat)
    requires p > 0
    ensures And(x, 2 * p - 1) == x % 2 + 2 * And(x / 2, p - 1)
  {
    AndDigit(x, 2 * p - 1);
    assert (2 * p - 1) / 2 == p - 1 && (2 * p - 1) % 2 == 1;
  }

  lemma LowMaskStep(x: nat, p: nat)
    requires p > 0 && And(x / 2, p - 1) == (x / 2) % p
    ensures And(x, 2 * p - 1) == x % (2 * p)
  {
    LowMaskDigit(x, p);
    HalveMod(x, p);
  }

  /** Masking with 2^k - 1 is the remainder by 2^k. */
  lemma {:induction false} LowMaskIsMod(k: nat, x: nat)
    ensures And(x, Pow2(k) - 1) == x % Pow2(k)
  {
    if k > 0 {
      LowMaskIsMod(k - 1, x / 2);
      LowMaskStep(x, Pow2(k - 1));
    }
  }

  lemma QuotientRemainder(x: int, d: int)
    requires d > 0
    ensures x == d * (x / d) + x % d && 0 <= x % d < d
  {
  }

  lemma {:induction false} MulMonotone(d: int, i: int, j: int)
    requires d > 0 && i <= j
    ensures d * i <= d * j
    ensures i < j ==> d * i + d <= d * j
    decreases j - i
  {
    if i < j {
      MulMonotone(d, i, j - 1);
      assert d * j == d * (j - 1) + d;
    }
  }

  lemma DivModUnique(x: int, d: int, q: int, r: int)
    requires d > 0 && x == d * q + r && 0 <= r < d
    ensures x / d == q && x % d == r
  {
    QuotientRemainder(x, d);
    if x / d < q {
      MulMonotone(d, x / d, q);
    } else if q < x / d {
      MulMonotone(d, q, x / d);
    }
  }

  /** x mod 2p, from the last digit of x and the rest mod p. */
  lemma HalveMod(x: nat, p: nat)
    requires p > 0
    ensures x % (2 * p) == x % 2 + 2 * ((x / 2) % p)
  {
    var y := x / 2;
    QuotientRemainder(y, p);
    var q, r := y / p, y % p;
    assert 2 * (p * q) == (2 * p) * q;
    DivModUnique(x, 2 * p, q, 2 * r + x % 2);
  }

  lemma ModShift(x: int, a: int)
    requires a > 0
    ensures (x + (a - 1)) % a == if x % a == 0 then a - 1 else x % a - 1
  {
    QuotientRemainder(x, a);
    if x % a == 0 {
      DivModUnique(x + (a - 1), a, x / a, a - 1);
    } else {
      assert a * (x / a + 1) == a * (x / a) + a;
      DivModUnique(x + (a - 1), a, x / a + 1, x % a - 1);
    }
  }

  lemma FloorMultiple(x: int, a: int)
    requires a > 0
    ensures (x - x % a) % a == 0
  {
    QuotientRemainder(x, a);
    DivModUnique(x - x % a, a, x / a, 0);
  }

  lemma MultipleBelow(m: int, x: int, a: int)
    requires a > 0 && m % a == 0 && m <= x
    ensures m <= x - x % a
  {
    QuotientRemainder(m, a);
    QuotientRemainder(x, a);
    if m / a <= x / a {
      MulMonotone(a, m / a, x / a);
    } else {
      MulMonotone(a, x / a, m / a);
    }
  }

  lemma MultipleAbove(m: int, x: int, a: int)
    requires a > 0 && m % a == 0 && x <= m
    ensures (x + (a - 1)) - (x + (a - 1)) % a <= m
  {
    var y := x + (a - 1);
    QuotientRemainder(m, a);
    QuotientRemainder(y, a);
    if y / a <= m / a {
      MulMonotone(a, y / a, m / a);
    } else {
      MulMonotone(a, m / a, y / a);
    }
  }

  lemma {:induction false} Pow2Bounds(k: nat, n: nat)
    requires k <= n
    ensures Pow2(k) <= Pow2(n) && Pow2(n) % Pow2(k) == 0
  {
    if k < n {
      Pow2Bounds(k, n - 1);
      var q := Pow2(n - 1) / Pow2(k);
      QuotientRemainder(Pow2(n - 1), Pow2(k));
      assert Pow2(k) * (2 * q) == 2 * (Pow2(k) * q);
      DivModUnique(Pow2(n), Pow2(k), 2 * q, 0);
    }
  }

  lemma WordIsPow2()
    ensures Pow2(32) == WORD
  {
    assert Pow2(8) == 256;
    assert Pow2(16) == 65536 by { assert Pow2(12) == 4096; }
    assert Pow2(24) == 16777216 by { assert Pow2(20) == 1048576; }
    assert Pow2(28) == 268435456;
  }

  /** Masks are arithmetic: the low bits are the remainder, the rest is x without it. */
  lemma MasksAreArithmetic(x: Word, a: Word)
    requires PowerOfTwo(a)
    ensures ToMask(x, Sub(a, 1)) == x % a
    ensures ToFloor(x, a) == x - x % a
    ensures ToFloor(x, a) + ToMask(x, Sub(a, 1)) == x
  {
    var k: nat :| k < 32 && a == Pow2(k);
    assert Sub(a, 1) == a - 1;
    WordIsPow2();
    LowMaskIsMod(k, x);
    AndSplits(32, x, a - 1);
  }

  /** TO_FLOOR is the greatest multiple not above x. */
  lemma FloorIsGreatestMultiple(x: Word, a: Word, m: int)
    requires PowerOfTwo(a)
    ensures ToFloor(x, a) % a == 0 && ToFloor(x, a) <= x
    ensures m % a == 0 && m <= x ==> m <= ToFloor(x, a)
  {
    MasksAreArithmetic(x, a);
    FloorMultiple(x, a);
    if m % a == 0 && m <= x {
      MultipleBelow(m, x, a);
    }
  }

  lemma AddValue(x: Word, y: Word)
    ensures Add(x, y) == if x + y < WORD then x + y else x + y - WORD
  {
  }

  /** What TO_CEIL computes, wrap-around included. */
  lemma CeilValue(x: Word, a: Word)
    requires PowerOfTwo(a)
    ensures ToCeil(x, a) == if x + (a - 1) < WORD then (x + (a - 1)) - (x + (a - 1)) % a else 0
  {
    assert Sub(a, 1) == a - 1;
    var y := Add(x, a - 1);
    AddValue(x, a - 1);
    MasksAreArithmetic(y, a);
    assert ToCeil(x, a) == ToFloor(y, a) == y - y % a;
    if x + (a - 1) >= WORD {
      DivModUnique(y, a, 0, y);
    }
  }

  /** TO_CEIL is the least multiple not below x exactly when x + (a - 1) does not wrap. */
  lemma CeilIsLeastMultiple(x: Word, a: Word)
    requires PowerOfTwo(a)
    ensures ToCeil(x, a) % a == 0
    ensures x + (a - 1) < WORD <==>
            x <= ToCeil(x, a) && forall m: int :: m % a == 0 && x <= m ==> ToCeil(x, a) <= m
  {
    CeilValue(x, a);
    FloorMultiple(x + (a - 1), a);
    QuotientRemainder(x + (a - 1), a);
    if x + (a - 1) < WORD {
      forall m: int | m % a == 0 && x <= m ensures ToCeil(x, a) <= m {
        MultipleAbove(m, x, a);
      }
    }
  }

  /** Rounding twice is rounding once, and a multiple is left alone. */
  lemma RoundingIsIdempotent(x: Word, a: Word)
    requires PowerOfTwo(a)
    ensures ToFloor(ToFloor(x, a), a) == ToFloor(x, a)
    ensures ToCeil(ToCeil(x, a), a) == ToCeil(x, a)
    ensures x % a == 0 ==> ToFloor(x, a) == x == ToCeil(x, a)
  {
    FloorIsGreatestMultiple(x, a, 0);
    MasksAreArithmetic(ToFloor(x, a), a);
    MasksAreArithmetic(x, a);
    CeilIsLeastMultiple(x, a);
    MultipleIsFixed(ToCeil(x, a), a);
    if x % a == 0 {
      MultipleIsFixed(x, a);
    }
  }

  lemma MultipleIsFixed(x: Word, a: Word)
    requires PowerOfTwo(a) && x % a == 0
    ensures ToCeil(x, a) == x
  {
    var k: nat :| k < 32 && a == Pow2(k);
    WordIsPow2();
    Pow2Bounds(k, 32);
    QuotientRemainder(x, a);
    QuotientRemainder(WORD, a);
    if x / a >= WORD / a {
      MulMonotone(a, WORD / a, x / a);
    } else {
      MulMonotone(a, x / a, WORD / a);
    }
    CeilValue(x, a);
    ModShift(x, a);
  }

  /** TO_FLOOR is monotone. TO_CEIL is on x <= y exactly when the larger operand does not wrap, or the
      smaller is 0, or both wrap. */
  lemma RoundingIsMonotone(x: Word, y: Word, a: Word)
    requires PowerOfTwo(a) && x <= y
    ensures ToFloor(x, a) <= ToFloor(y, a)
    ensures ToCeil(x, a) <= ToCeil(y, a) <==> y + (a - 1) < WORD || x == 0 || x + (a - 1) >= WORD
  {
    FloorIsGreatestMultiple(x, a, 0);
    FloorIsGreatestMultiple(y, a, ToFloor(x, a));
    CeilIsLeastMultiple(x, a);
    CeilIsLeastMultiple(y, a);
    CeilValue(x, a);
    CeilValue(y, a);
    DivModUnique(0, a, 0, 0);
    MultipleIsFixed(0, a);
  }

  /** A concrete wrap: 1 rounds up to 2, the largest word rounds up to 0. */
  lemma CeilWrapsExample()
    ensures ToCeil(1, 2) == 2 && ToCeil(WORD - 1, 2) == 0
  {
    assert Pow2(1) == 2;
    assert PowerOfTwo(2);
    CeilValue(1, 2);
    CeilValue(WORD - 1, 2);
  }

  /** Both roundings of x are less than one unit apart, and meet exactly on the multiples. */
  lemma CeilAndFloor(x: Word, a: Word)
    requires PowerOfTwo(a) && x + (a - 1) < WORD
    ensures ToCeil(x, a) == ToFloor(x, a) + if x % a == 0 then 0 else a
  {
    MasksAreArithmetic(x, a);
    CeilValue(x, a);
    ModShift(x, a);
  }

  /** DUNUM_MAPPING sends 1, 2, 3, 4 to 0, 1, 2, 3 and repeats with period 4; 0 wraps to 3. */
  lemma DunumIsCyclic(value: Word)
    ensures DunumMapping(value) == (value + 3) % 4
  {
    assert Pow2(2) == 4;
    LowMaskIsMod(2, Sub(value, 1));
    if value == 0 {
      assert Sub(value, 1) == WORD - 1;
    } else {
      assert Sub(value, 1) == value - 1;
    }
  }
}
