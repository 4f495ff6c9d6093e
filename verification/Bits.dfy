/** Python's bit operations on unbounded integers, and what they compute on aligned fields. */
module Bits {
  function Pow2(n: nat): (p: nat)
    ensures p >= 1
  {
    if n == 0 then 1 else 2 * Pow2(n - 1)
  }

  lemma {:induction false} Pow2Add(a: nat, b: nat)
    ensures Pow2(a + b) == Pow2(a) * Pow2(b)
  {
    if a > 0 {
      Pow2Add(a - 1, b);
      assert 2 * Pow2(a - 1) * Pow2(b) == 2 * (Pow2(a - 1) * Pow2(b));
    }
  }

  lemma {:induction false} Pow2Grows(a: nat, b: nat)
    requires a <= b
    ensures Pow2(a) <= Pow2(b)
    decreases b
  {
    if a < b { Pow2Grows(a, b - 1); }
  }

  /** x << n */
  function Shl(x: nat, n: nat): nat
    decreases n, x
  {
    if n == 0 then x else 2 * Shl(x, n - 1)
  }

  lemma {:induction false} ShlIsTimes(x: nat, n: nat)
    ensures Shl(x, n) == x * Pow2(n)
  {
    if n > 0 {
      ShlIsTimes(x, n - 1);
      assert x * (2 * Pow2(n - 1)) == 2 * (x * Pow2(n - 1));
    }
  }

  lemma {:induction false} ShlAdd(x: nat, y: nat, n: nat)
    ensures Shl(x + y, n) == Shl(x, n) + Shl(y, n)
  {
    if n > 0 { ShlAdd(x, y, n - 1); }
  }

  lemma {:induction false} ShlPow2(a: nat, n: nat)
    ensures Shl(Pow2(a), n) == Pow2(a + n)
  {
    if n > 0 { ShlPow2(a, n - 1); }
  }

  lemma {:induction false} ShlBound(x: nat, a: nat, n: nat)
    requires x < Pow2(a)
    ensures Shl(x, n) < Pow2(a + n)
  {
    if n > 0 { ShlBound(x, a, n - 1); }
  }

  lemma {:induction false} ShlShl(x: nat, a: nat, b: nat)
    ensures Shl(Shl(x, a), b) == Shl(x, a + b)
  {
    if b > 0 { ShlShl(x, a, b - 1); }
  }

  /** x >> n */
  function Shr(x: nat, n: nat): nat
    decreases n, x
  {
    if n == 0 then x else Shr(x / 2, n - 1)
  }

  /** The lowest n bits of x, in two's complement if x is negative. */
  function LowBits(x: int, n: nat): nat
    decreases n, x
  {
    if n == 0 then 0 else x % 2 + 2 * LowBits(x / 2, n - 1)
  }

  lemma {:induction false} LowBitsBound(x: int, n: nat)
    ensures LowBits(x, n) < Pow2(n)
    decreases n
  {
    if n > 0 { LowBitsBound(x / 2, n - 1); }
  }

  /** The low bits are the remainder, also of a negative number. */
  lemma {:induction false} LowBitsIsRemainder(x: int, n: nat)
    ensures LowBits(x, n) == x % Pow2(n)
    decreases n
  {
    if n > 0 {
      LowBitsIsRemainder(x / 2, n - 1);
      HalvedRemainder(x, Pow2(n - 1));
    }
  }

  /** A low and a high field can be taken apart again. */
  lemma {:induction false} CutJoined(low: nat, high: nat, n: nat)
    requires low < Pow2(n)
    ensures LowBits(low + Shl(high, n), n) == low && Shr(low + Shl(high, n), n) == high
  {
    if n > 0 {
      CutJoined(low / 2, high, n - 1);
      assert (low + Shl(high, n)) / 2 == low / 2 + Shl(high, n - 1);
    }
  }

  lemma JoinedBound(low: nat, high: nat, n: nat, k: nat)
    requires low < Pow2(n) && high < Pow2(k)
    ensures low + Shl(high, n) < Pow2(n + k)
  {
    ShlBound(Pow2(k) - high - 1, k, n);
    ShlAdd(high, Pow2(k) - high, n);
    ShlAdd(1, Pow2(k) - high - 1, n);
    ShlPow2(0, n);
    ShlPow2(k, n);
  }

  /** x | y */
  function BitOr(x: nat, y: nat): nat {
    if x == 0 then y
    else if y == 0 then x
    else 2 * BitOr(x / 2, y / 2) + (if x % 2 == 1 || y % 2 == 1 then 1 else 0)
  }

  /** x & mask, where a negative x has infinitely many leading ones. */
  function BitAnd(x: int, mask: nat): nat
    decreases mask
  {
    if mask == 0 then 0 else 2 * BitAnd(x / 2, mask / 2) + (if x % 2 == 1 && mask % 2 == 1 then 1 else 0)
  }

  /** Bit k of x | y is set if and only if it is set in x or in y. */
  lemma {:induction false} OrBit(x: nat, y: nat, k: nat)
    ensures Shr(BitOr(x, y), k) % 2 == 1 <==> Shr(x, k) % 2 == 1 || Shr(y, k) % 2 == 1
    decreases k
  {
    if x == 0 {
      ShrZero(k);
    } else if y == 0 {
      ShrZero(k);
    } else if k > 0 {
      OrBit(x / 2, y / 2, k - 1);
    }
  }

  /** Bit k of x & mask is set if and only if it is set in both; bit k of a negative number is that of its low bits. */
  lemma {:induction false} AndBit(x: int, mask: nat, k: nat)
    ensures Shr(BitAnd(x, mask), k) % 2 == 1 <==> Shr(LowBits(x, k + 1), k) % 2 == 1 && Shr(mask, k) % 2 == 1
    decreases k
  {
    if mask == 0 {
      ShrZero(k);
    } else if k > 0 {
      AndBit(x / 2, mask / 2, k - 1);
      AndHalf(x, mask);
      LowHalf(x, k);
      hide BitAnd, LowBits;
    } else {
      assert LowBits(x, 1) == x % 2 + 2 * LowBits(x / 2, 0);
    }
  }

  lemma AndHalf(x: int, mask: nat)
    requires mask > 0
    ensures BitAnd(x, mask) / 2 == BitAnd(x / 2, mask / 2)
  {
  }

  lemma LowHalf(x: int, k: nat)
    ensures LowBits(x, k + 1) / 2 == LowBits(x / 2, k)
  {
  }

  lemma {:induction false} ShrZero(k: nat)
    ensures Shr(0, k) == 0
  {
    if k > 0 { ShrZero(k - 1); }
  }

  lemma DivModUnique(x: int, m: nat, q: int, r: nat)
    requires r < m && x == q * m + r
    ensures x / m == q && x % m == r
  {
    MultipleOf(x / m - q, m);
    assert (x / m - q) * m == r - x % m;
  }

  lemma MultipleOf(d: int, m: nat)
    ensures d >= 1 ==> d * m >= m
    ensures d <= -1 ==> d * m <= -(m as int)
  {
  }

  /** Joining a low field with a high one by "or" is adding them. */
  lemma {:induction false} OrOfFields(low: nat, high: nat, k: nat)
    requires low < Pow2(k)
    ensures BitOr(low, Shl(high, k)) == low + Shl(high, k)
  {
    if k > 0 { OrOfFields(low / 2, high, k - 1); }
  }

  /** Masking with w ones keeps the low bits. */
  lemma {:induction false} AndOfMask(x: int, w: nat)
    ensures BitAnd(x, Pow2(w) - 1) == LowBits(x, w)
    decreases w
  {
    if w > 0 { AndOfMask(x / 2, w - 1); }
  }

  lemma HalvedRemainder(x: int, p: nat)
    requires p >= 1
    ensures x % (2 * p) == 2 * (x / 2 % p) + x % 2
  {
    var q, r := x / 2 / p, x / 2 % p;
    assert x / 2 == q * p + r;
    DivModUnique(x, 2 * p, q, 2 * r + x % 2);
  }
}
