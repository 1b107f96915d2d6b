/** Binary digits of natural numbers: the vocabulary in which the hash is specified. */
module Bits {

  type Byte = x: int | 0 <= x < 256

  /** Binary digit `k` of `x`. */
  function Bit(x: nat, k: nat): bool
    decreases k
  {
    if k == 0 then x % 2 == 1 else Bit(x / 2, k - 1)
  }

  /** The `^` operator on non-negative integers. */
  function Xor(x: nat, y: nat): nat
    decreases x + y
  {
    if x == 0 && y == 0 then 0
    else (x % 2 + y % 2) % 2 + 2 * Xor(x / 2, y / 2)
  }

  /** `x << s` without overflow. */
  function Shl(x: nat, s: nat): nat
    decreases s
  {
    if s == 0 then x else 2 * Shl(x, s - 1)
  }

  /** `x >> s`. */
  function Shr(x: nat, s: nat): nat
    decreases s
  {
    if s == 0 then x else Shr(x / 2, s - 1)
  }

  /** The conversion `byte(x)`: the low eight binary digits. */
  function LowByte(x: nat): Byte {
    x % 256
  }

  function XorByte(x: Byte, y: Byte): Byte {
    XorBelow(x, y, 8);
    Xor(x, y)
  }

  lemma {:induction false} ZeroBit(k: nat)
    ensures !Bit(0, k)
  {
    if k > 0 {
      ZeroBit(k - 1);
    }
  }

  lemma {:induction false} XorBit(x: nat, y: nat, k: nat)
    ensures Bit(Xor(x, y), k) == (Bit(x, k) != Bit(y, k))
    decreases k
  {
    if x == 0 && y == 0 {
      ZeroBit(k);
    } else if k > 0 {
      assert Xor(x, y) / 2 == Xor(x / 2, y / 2);
      XorBit(x / 2, y / 2, k - 1);
    }
  }

  lemma {:induction false} XorBelow(x: nat, y: nat, n: nat)
    requires x < Shl(1, n) && y < Shl(1, n)
    ensures Xor(x, y) < Shl(1, n)
    decreases n
  {
    if n > 0 {
      XorBelow(x / 2, y / 2, n - 1);
    }
  }

  lemma {:induction false} ShlBit(x: nat, s: nat, k: nat)
    ensures Bit(Shl(x, s), k) == (k >= s && Bit(x, k - s))
    decreases s
  {
    if s > 0 && k > 0 {
      assert Shl(x, s) / 2 == Shl(x, s - 1);
      ShlBit(x, s - 1, k - 1);
    }
  }

  lemma {:induction false} ShrBit(x: nat, s: nat, k: nat)
    ensures Bit(Shr(x, s), k) == Bit(x, s + k)
    decreases s
  {
    if s > 0 {
      ShrBit(x / 2, s - 1, k);
    }
  }

  lemma LowByteBit(x: nat, k: nat)
    requires k < 8
    ensures Bit(LowByte(x), k) == Bit(x, k)
  {
    LowBitsBit(x, 8, k);
  }

  lemma {:induction false} LowBitsBit(x: nat, n: nat, k: nat)
    requires k < n
    ensures Shl(1, n) > 0
    ensures Bit(x % Shl(1, n), k) == Bit(x, k)
    decreases n
  {
    ShlPositive(n - 1);
    var m := Shl(1, n - 1);
    HalfMod(x, m);
    if k > 0 {
      LowBitsBit(x / 2, n - 1, k - 1);
    }
  }

  lemma {:induction false} ShlPositive(n: nat)
    ensures Shl(1, n) > 0
  {
    if n > 0 {
      ShlPositive(n - 1);
    }
  }

  /** Shifting twice. */
  lemma {:induction false} ShlSum(x: nat, a: nat, b: nat)
    ensures Shl(x, a + b) == Shl(Shl(x, a), b)
    decreases b
  {
    if b > 0 {
      ShlSum(x, a, b - 1);
    }
  }

  lemma {:induction false} ShlTimes(x: nat, n: nat)
    ensures Shl(x, n) == x * Shl(1, n)
    decreases n
  {
    if n > 0 {
      ShlTimes(x, n - 1);
      assert x * (2 * Shl(1, n - 1)) == 2 * (x * Shl(1, n - 1));
    }
  }

  lemma HalfMod(x: nat, m: nat)
    requires m > 0
    ensures (x % (2 * m)) / 2 == (x / 2) % m
    ensures (x % (2 * m)) % 2 == x % 2
  {
    var q, r := x / (2 * m), x % (2 * m);
    assert x == 2 * m * q + r;
    assert 2 * m * q == 2 * (m * q);
    assert x / 2 == m * q + r / 2;
    ModUnique(x / 2, m, q, r / 2);
  }

  lemma ModUnique(a: nat, m: nat, q: nat, r: nat)
    requires m > 0 && r < m && a == m * q + r
    ensures a % m == r
  {
    var q', r' := a / m, a % m;
    assert a == m * q' + r';
    MulApart(m, q, q');
    MulApart(m, q', q);
  }

  lemma {:induction false} MulApart(m: nat, a: nat, b: nat)
    ensures a < b ==> m * a + m <= m * b
    decreases b
  {
    if a + 1 < b {
      MulApart(m, a, b - 1);
      assert m * b == m * (b - 1) + m;
    } else if a + 1 == b {
      assert m * b == m * a + m;
    }
  }

  /** A byte has no binary digit beyond its eighth. */
  lemma {:induction false} HighBit(x: nat, n: nat, k: nat)
    requires x < Shl(1, n) && n <= k
    ensures !Bit(x, k)
    decreases n
  {
    if n == 0 {
      ZeroBit(k);
    } else {
      HighBit(x / 2, n - 1, k - 1);
    }
  }

  /** Two different numbers below 2^n differ in one of their first n digits. */
  lemma {:induction false} DifferingBit(x: nat, y: nat, n: nat) returns (k: nat)
    requires x < Shl(1, n) && y < Shl(1, n) && x != y
    ensures k < n && Bit(x, k) != Bit(y, k)
    decreases n
  {
    if x % 2 != y % 2 {
      k := 0;
    } else {
      k := DifferingBit(x / 2, y / 2, n - 1);
      k := k + 1;
    }
  }

  /** Numbers below 2^n with the same first n digits are equal. */
  lemma {:induction false} EqualBits(x: nat, y: nat, n: nat)
    requires x < Shl(1, n) && y < Shl(1, n)
    requires forall k :: 0 <= k < n ==> Bit(x, k) == Bit(y, k)
    ensures x == y
    decreases n
  {
    if n > 0 {
      assert Bit(x, 0) == Bit(y, 0);
      forall k | 0 <= k < n - 1
        ensures Bit(x / 2, k) == Bit(y / 2, k)
      {
        assert Bit(x, k + 1) == Bit(y, k + 1);
      }
      EqualBits(x / 2, y / 2, n - 1);
    }
  }
}
