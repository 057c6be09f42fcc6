/** Bitwise operators on natural numbers, as the sources use them on machine words and on Python's
    unbounded integers.  A shift left by n is a multiplication by Pow2(n) and a shift right a division. */
module Bits {

  function Pow2(n: nat): (p: nat)
    ensures p >= 1
  {
    if n == 0 then 1 else 2 * Pow2(n - 1)
  }

  lemma {:induction false} Pow2Add(m: nat, n: nat)
    ensures Pow2(m + n) == Pow2(m) * Pow2(n)
  {
    if m > 0 {
      Pow2Add(m - 1, n);
      assert 2 * (Pow2(m - 1) * Pow2(n)) == 2 * Pow2(m - 1) * Pow2(n);
    }
  }

  lemma {:induction false} Pow2Monotone(m: nat, n: nat)
    requires m <= n
    ensures Pow2(m) <= Pow2(n)
  {
    if m < n { Pow2Monotone(m, n - 1); }
  }

  /** Whether bit i of x is set. */
  predicate Bit(x: nat, i: nat) {
    if i == 0 then x % 2 == 1 else Bit(x / 2, i - 1)
  }

  function Or(x: nat, y: nat): (z: nat) {
    if x == 0 then y else if y == 0 then x
    else 2 * Or(x / 2, y / 2) + if x % 2 == 1 || y % 2 == 1 then 1 else 0
  }

  function And(x: nat, y: nat): (z: nat) {
    if x == 0 || y == 0 then 0
    else 2 * And(x / 2, y / 2) + if x % 2 == 1 && y % 2 == 1 then 1 else 0
  }

  function Xor(x: nat, y: nat): (z: nat) {
    if x == 0 then y else if y == 0 then x
    else 2 * Xor(x / 2, y / 2) + if x % 2 != y % 2 then 1 else 0
  }

  lemma {:induction false} ZeroBit(i: nat)
    ensures !Bit(0, i)
  {
    if i > 0 { ZeroBit(i - 1); }
  }

  lemma {:induction false} OrBit(x: nat, y: nat, i: nat)
    ensures Bit(Or(x, y), i) == (Bit(x, i) || Bit(y, i))
    decreases i
  {
    ZeroBit(i);
    if x != 0 && y != 0 && i > 0 {
      OrBit(x / 2, y / 2, i - 1);
      assert Or(x, y) / 2 == Or(x / 2, y / 2);
    }
  }

  lemma {:induction false} AndBit(x: nat, y: nat, i: nat)
    ensures Bit(And(x, y), i) == (Bit(x, i) && Bit(y, i))
    decreases i
  {
    ZeroBit(i);
    if x != 0 && y != 0 && i > 0 {
      AndBit(x / 2, y / 2, i - 1);
      assert And(x, y) / 2 == And(x / 2, y / 2);
    }
  }

  lemma {:induction false} XorBit(x: nat, y: nat, i: nat)
    ensures Bit(Xor(x, y), i) == (Bit(x, i) != Bit(y, i))
    decreases i
  {
    ZeroBit(i);
    if x != 0 && y != 0 && i > 0 {
      XorBit(x / 2, y / 2, i - 1);
      assert Xor(x, y) / 2 == Xor(x / 2, y / 2);
    }
  }

  lemma {:induction false} SomeBit(x: nat) returns (i: nat)
    requires x != 0
    ensures Bit(x, i)
  {
    if x % 2 == 1 {
      i := 0;
    } else {
      i := SomeBit(x / 2);
      i := i + 1;
    }
  }

  /** x >> n */
  function Shr(x: nat, n: nat): (z: nat)
    decreases n
  {
    if n == 0 then x else Shr(x / 2, n - 1)
  }

  /** x << n */
  function Shl(x: nat, n: nat): (z: nat)
    decreases n
  {
    if n == 0 then x else 2 * Shl(x, n - 1)
  }

  /** The low n bits of x, that is x & (2^n - 1) */
  function Low(x: nat, n: nat): (z: nat)
    decreases n
  {
    if n == 0 then 0 else 2 * Low(x / 2, n - 1) + x % 2
  }

  lemma {:induction false} ShrBit(x: nat, n: nat, i: nat)
    ensures Bit(Shr(x, n), i) == Bit(x, i + n)
    decreases n
  {
    if n > 0 { ShrBit(x / 2, n - 1, i); }
  }

  lemma {:induction false} ShlBit(x: nat, n: nat, i: nat)
    ensures Bit(Shl(x, n), i) == (i >= n && Bit(x, i - n))
    decreases n
  {
    if n > 0 && i > 0 {
      assert Shl(x, n) / 2 == Shl(x, n - 1);
      ShlBit(x, n - 1, i - 1);
    }
  }

  lemma {:induction false} LowBit(x: nat, n: nat, i: nat)
    ensures Bit(Low(x, n), i) == (i < n && Bit(x, i))
    decreases n
  {
    if n == 0 { ZeroBit(i); } else if i > 0 { LowBit(x / 2, n - 1, i - 1); }
  }

  lemma {:induction false} LowSmall(x: nat, n: nat)
    ensures Low(x, n) < Pow2(n)
    decreases n
  {
    if n > 0 { LowSmall(x / 2, n - 1); }
  }

  lemma {:induction false} ShlIsMul(x: nat, n: nat)
    ensures Shl(x, n) == x * Pow2(n)
    decreases n
  {
    if n > 0 { ShlIsMul(x, n - 1); }
  }

  lemma {:induction false} ShlMonotone(x: nat, m: nat, n: nat)
    requires m <= n
    ensures Shl(x, m) <= Shl(x, n)
    decreases n
  {
    if m < n { ShlMonotone(x, m, n - 1); }
  }

  /** A shift right and the bits it drops make up the number. */
  lemma {:induction false} ShrLow(x: nat, n: nat)
    ensures x == Shl(Shr(x, n), n) + Low(x, n)
    decreases n
  {
    if n > 0 { ShrLow(x / 2, n - 1); }
  }

  lemma ShrIsDiv(x: nat, n: nat)
    ensures Shr(x, n) == x / Pow2(n)
  {
    ShrLow(x, n);
    LowSmall(x, n);
    ShlIsMul(Shr(x, n), n);
    DivUnique(x, Pow2(n), Shr(x, n), Low(x, n));
  }

  lemma {:induction false} ShrSmall(x: nat, n: nat, m: nat)
    requires x < Pow2(n + m)
    ensures Shr(x, n) < Pow2(m)
    decreases n
  {
    if n > 0 { ShrSmall(x / 2, n - 1, m); }
  }

  /** The number whose bits n and up are clear is below Pow2(n), and the other way round. */
  lemma {:induction false} SmallBit(x: nat, n: nat, i: nat)
    requires x < Pow2(n) && n <= i
    ensures !Bit(x, i)
    decreases n
  {
    if n == 0 { ZeroBit(i); } else { SmallBit(x / 2, n - 1, i - 1); }
  }

  lemma {:induction false} SameBits(x: nat, y: nat, n: nat)
    requires x < Pow2(n) && y < Pow2(n)
    requires forall i: nat :: i < n ==> Bit(x, i) == Bit(y, i)
    ensures x == y
    decreases n
  {
    if n > 0 {
      assert Bit(x, 0) == Bit(y, 0);
      forall i: nat | i < n - 1 ensures Bit(x / 2, i) == Bit(y / 2, i) {
        assert Bit(x, i + 1) == Bit(y, i + 1);
      }
      SameBits(x / 2, y / 2, n - 1);
    }
  }

  lemma {:induction false} OrSmall(x: nat, y: nat, n: nat)
    requires x < Pow2(n) && y < Pow2(n)
    ensures Or(x, y) < Pow2(n)
    decreases n
  {
    if n > 0 { OrSmall(x / 2, y / 2, n - 1); }
  }

  /** OR of a word and a word shifted past its top bit is their sum. */
  lemma {:induction false} OrDisjoint(x: nat, y: nat, n: nat)
    requires x < Pow2(n)
    ensures Or(x, Shl(y, n)) == x + Shl(y, n)
    decreases n
  {
    if n > 0 { OrDisjoint(x / 2, y, n - 1); }
  }

  lemma {:induction false} PowBit(n: nat, i: nat)
    ensures Bit(Pow2(n), i) == (i == n)
    decreases n
  {
    if n == 0 {
      if i > 0 { ZeroBit(i - 1); }
    } else if i > 0 {
      PowBit(n - 1, i - 1);
    }
  }

  /** An all-ones word: bits below n. */
  lemma {:induction false} OnesBit(n: nat, i: nat)
    ensures Bit(Pow2(n) - 1, i) == (i < n)
    decreases n
  {
    if n == 0 {
      ZeroBit(i);
    } else if i > 0 {
      assert (Pow2(n) - 1) / 2 == Pow2(n - 1) - 1;
      OnesBit(n - 1, i - 1);
    }
  }

  /** An n-bit word with bit i clear and all others set. */
  lemma {:induction false} AllButBit(n: nat, i: nat, j: nat)
    requires i < n
    ensures Pow2(i) <= Pow2(n) - 1
    ensures Bit(Pow2(n) - 1 - Pow2(i), j) <==> j < n && j != i
    decreases n
  {
    var x := Pow2(n) - 1 - Pow2(i);
    if i == 0 {
      assert x / 2 == Pow2(n - 1) - 1;
      if j > 0 { OnesBit(n - 1, j - 1); }
    } else {
      AllButBit(n - 1, i - 1, if j > 0 then j - 1 else 0);
      assert x / 2 == Pow2(n - 1) - 1 - Pow2(i - 1);
    }
  }

  lemma {:induction false} ShlOfZero(n: nat)
    ensures Shl(0, n) == 0
  {
    if n > 0 { ShlOfZero(n - 1); }
  }

  lemma {:induction false} ShlOne(n: nat)
    ensures Shl(1, n) == Pow2(n)
  {
    if n > 0 { ShlOne(n - 1); }
  }

  /** x & (1 << n) */
  lemma {:induction false} TestBit(x: nat, n: nat)
    ensures And(x, Shl(1, n)) != 0 <==> Bit(x, n)
    decreases n
  {
    if n > 0 && x != 0 {
      TestBit(x / 2, n - 1);
      assert Shl(1, n) / 2 == Shl(1, n - 1);
    } else {
      ZeroBit(n);
      if x != 0 { assert And(x / 2, 0) == 0; }
    }
  }

  /** x & (2^n - 1) */
  lemma {:induction false} AndOnes(x: nat, n: nat)
    ensures And(x, Pow2(n) - 1) == Low(x, n)
    decreases n
  {
    if n > 0 {
      AndOnes(x / 2, n - 1);
      assert (Pow2(n) - 1) / 2 == Pow2(n - 1) - 1;
    }
    if x == 0 { LowOfZero(n); }
  }

  lemma {:induction false} LowOfZero(n: nat)
    ensures Low(0, n) == 0
  {
    if n > 0 { LowOfZero(n - 1); }
  }

  // Division and remainder

  lemma DivUnique(x: int, m: int, q: int, r: int)
    requires m > 0 && 0 <= r < m && x == q * m + r
    ensures x / m == q && x % m == r
  {
    var d := x / m - q;
    assert d * m == r - x % m;
    assert d > 0 ==> d * m >= m;
    assert d < 0 ==> d * m <= -m;
  }

  lemma AddMultiple(x: int, m: int, q: int)
    requires m > 0
    ensures (x + q * m) % m == x % m
    ensures (x + q * m) / m == x / m + q
  {
    assert x + q * m == (x / m + q) * m + x % m;
    DivUnique(x + q * m, m, x / m + q, x % m);
  }

  /** A remainder by a multiple of a keeps the remainder by a. */
  lemma ModMod(x: int, a: nat, b: nat)
    requires a > 0 && b > 0
    ensures a * b > 0 && (x % (a * b)) % a == x % a
  {
    var q := x / (a * b);
    assert x == q * (a * b) + x % (a * b);
    assert q * (a * b) == (q * b) * a;
    AddMultiple(x % (a * b), a, q * b);
  }

  lemma MulMonotone(x: nat, y: nat, m: nat)
    requires x <= y
    ensures x * m <= y * m
  {
  }

  /** Positions less than m apart have different remainders. */
  lemma ModDistinct(x: int, d: nat, m: nat)
    requires 0 < d < m
    ensures (x + d) % m != x % m
  {
    var q, r := x / m, x % m;
    assert x == q * m + r;
    if r + d < m {
      DivUnique(x + d, m, q, r + d);
    } else {
      assert x + d == (q + 1) * m + (r + d - m);
      DivUnique(x + d, m, q + 1, r + d - m);
    }
  }
}
