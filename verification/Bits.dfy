/** Bytes, and single-bit operations on natural numbers by their binary digits, as both
    bitmaps of the kernel use them: the frame bitmap of kernel/pmm.c and the block bitmap
    of kernel/xv6fs/fs.c. */
module Bits {
  type byte = x: int | 0 <= x < 256

  function Pow2(k: nat): (m: nat)
    ensures m > 0
  {
    if k == 0 then 1 else 2 * Pow2(k - 1)
  }

  // x & (1 << k) is not zero
  predicate Bit(x: nat, k: nat) {
    if k == 0 then x % 2 == 1 else Bit(x / 2, k - 1)
  }

  // Bit k is the binary digit of weight 2^k.
  lemma {:induction false} BitDigit(x: nat, k: nat)
    ensures Bit(x, k) <==> x / Pow2(k) % 2 == 1
  {
    if k > 0 {
      BitDigit(x / 2, k - 1);
      DivideTwice(x, Pow2(k - 1));
    }
  }

  lemma DivideTwice(x: nat, d: nat)
    requires d > 0
    ensures x / 2 / d == x / (2 * d)
  {
    var q, r := x / 2 / d, x / 2 % d;
    var m, rest := 2 * d, 2 * r + x % 2;
    assert x / 2 == d * q + r;
    Doubled(d, q);
    QuotientIs(x, m, q, rest);
  }

  lemma Doubled(d: nat, q: nat)
    ensures 2 * (d * q) == 2 * d * q
  {
  }

  lemma QuotientIs(x: nat, m: nat, q: nat, r: nat)
    requires x == m * q + r && r < m
    ensures x / m == q
  {
    var p, s := x / m, x % m;
    assert m * p + s == m * q + r;
    if p < q {
      Apart(m, p, q);
    } else if q < p {
      Apart(m, q, p);
    }
  }

  lemma Apart(m: nat, p: nat, q: nat)
    requires p < q
    ensures m * p + m <= m * q
  {
    assert m * q == m * p + m * (q - p);
    assert m * (q - p - 1) >= 0;
  }

  // x | (1 << k)
  function WithBit(x: nat, k: nat): nat {
    if k == 0 then x - x % 2 + 1 else 2 * WithBit(x / 2, k - 1) + x % 2
  }

  // x & ~(1 << k)
  function WithoutBit(x: nat, k: nat): nat {
    if k == 0 then x - x % 2 else 2 * WithoutBit(x / 2, k - 1) + x % 2
  }

  // The two updates add or subtract exactly the mask, and only when the bit changes.
  lemma {:induction false} UpdatesMoveTheMask(x: nat, k: nat)
    ensures WithBit(x, k) == (if Bit(x, k) then x else x + Pow2(k))
    ensures WithoutBit(x, k) == (if Bit(x, k) then x - Pow2(k) else x)
  {
    if k > 0 {
      UpdatesMoveTheMask(x / 2, k - 1);
    }
  }

  lemma {:induction false} SetOneBit(x: nat, k: nat, j: nat)
    ensures Bit(WithBit(x, k), j) == (j == k || Bit(x, j))
  {
    if k > 0 && j > 0 {
      SetOneBit(x / 2, k - 1, j - 1);
    }
  }

  lemma {:induction false} ClearOneBit(x: nat, k: nat, j: nat)
    ensures Bit(WithoutBit(x, k), j) == (j != k && Bit(x, j))
  {
    if k > 0 && j > 0 {
      ClearOneBit(x / 2, k - 1, j - 1);
    }
  }

  lemma {:induction false} StaysInWidth(x: nat, k: nat, n: nat)
    requires k < n && x < Pow2(n)
    ensures WithBit(x, k) < Pow2(n) && WithoutBit(x, k) < Pow2(n)
  {
    if k > 0 {
      StaysInWidth(x / 2, k - 1, n - 1);
    }
  }

  function SetInByte(x: byte, k: nat): byte
    requires k < 8
  {
    StaysInWidth(x, k, 8);
    assert Pow2(8) == 256;
    WithBit(x, k)
  }

  function ClearInByte(x: byte, k: nat): byte
    requires k < 8
  {
    StaysInWidth(x, k, 8);
    assert Pow2(8) == 256;
    WithoutBit(x, k)
  }

  lemma {:induction false} ZeroHasNoBits(k: nat)
    ensures !Bit(0, k)
  {
    if k > 0 {
      ZeroHasNoBits(k - 1);
    }
  }
}
