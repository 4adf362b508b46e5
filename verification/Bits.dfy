/**
 Unsigned machine words as bounded integers, with the bitwise operators of C++
 defined digit by digit, and the laws the trigger code relies on.
 */
module Bits {

  const TWO32: int := 0x1_0000_0000

  type uint32 = x: int | 0 <= x < 0x1_0000_0000
  type uint64 = x: int | 0 <= x < 0x1_0000_0000_0000_0000

  /** Conversion of any integer to `uint32_t`. */
  function Wrap32(x: int): uint32 {
    x % TWO32
  }

  function Pow2(n: nat): (r: nat)
    ensures r >= 1
  {
    if n == 0 then 1 else 2 * Pow2(n - 1)
  }

  predicate Bit(v: nat, i: nat) {
    if i == 0 then v % 2 == 1 else Bit(v / 2, i - 1)
  }

  function BitOr(a: nat, b: nat): nat {
    if a == 0 then b
    else 2 * BitOr(a / 2, b / 2) + (if a % 2 == 1 || b % 2 == 1 then 1 else 0)
  }

  function BitAnd(a: nat, b: nat): nat {
    if a == 0 then 0
    else 2 * BitAnd(a / 2, b / 2) + (if a % 2 == 1 && b % 2 == 1 then 1 else 0)
  }

  /** `v >> n`. */
  function Shr(v: nat, n: nat): nat {
    if n == 0 then v else Shr(v / 2, n - 1)
  }

  /** The low n bits of a word. */
  function LowBits(v: uint32, n: nat): (r: uint32)
    ensures r == v % Pow2(n) && r < Pow2(n) && r <= v
  {
    ModBelow(v, Pow2(n));
    v % Pow2(n)
  }

  /** The bits of a 32-bit word, as a set of positions. */
  function BitsOf(v: uint32): set<nat> {
    set i: nat | 0 <= i < 32 && Bit(v, i)
  }

  lemma {:induction false} ZeroBit(i: nat)
    ensures !Bit(0, i)
  {
    if i > 0 { ZeroBit(i - 1); }
  }

  lemma {:induction false} OrBit(a: nat, b: nat, i: nat)
    ensures Bit(BitOr(a, b), i) == (Bit(a, i) || Bit(b, i))
  {
    if a == 0 {
      ZeroBit(i);
    } else if i > 0 {
      OrBit(a / 2, b / 2, i - 1);
      assert BitOr(a, b) / 2 == BitOr(a / 2, b / 2);
    }
  }

  lemma {:induction false} AndBit(a: nat, b: nat, i: nat)
    ensures Bit(BitAnd(a, b), i) == (Bit(a, i) && Bit(b, i))
  {
    if a == 0 {
      ZeroBit(i);
    } else if i > 0 {
      AndBit(a / 2, b / 2, i - 1);
      assert BitAnd(a, b) / 2 == BitAnd(a / 2, b / 2);
    }
  }

  lemma {:induction false} OrBelow(a: nat, b: nat, n: nat)
    requires a < Pow2(n) && b < Pow2(n)
    ensures BitOr(a, b) < Pow2(n)
  {
    if a != 0 && n > 0 {
      OrBelow(a / 2, b / 2, n - 1);
    }
  }

  lemma {:induction false} Pow2Monotone(m: nat, n: nat)
    requires m <= n
    ensures Pow2(m) <= Pow2(n)
  {
    if m < n { Pow2Monotone(m, n - 1); }
  }

  lemma {:induction false} Pow2Add(m: nat, n: nat)
    ensures Pow2(m + n) == Pow2(m) * Pow2(n)
  {
    if n > 0 {
      Pow2Add(m, n - 1);
      assert Pow2(m) * (2 * Pow2(n - 1)) == 2 * (Pow2(m) * Pow2(n - 1));
    }
  }

  /** The powers that occur as sizes and masks. */
  lemma Powers()
    ensures Pow2(0) == 1 && Pow2(7) == 0x80 && Pow2(8) == 0x100 && Pow2(16) == 0x1_0000 && Pow2(17) == 0x2_0000
    ensures Pow2(31) == 0x8000_0000 && Pow2(32) == TWO32
  {
    assert Pow2(4) == 16;
    Pow2Add(4, 3);
    Pow2Add(4, 4);
    Pow2Add(8, 8);
    Pow2Add(16, 1);
    Pow2Add(16, 16);
  }

  lemma {:induction false} Pow2Bit(n: nat, i: nat)
    ensures Bit(Pow2(n), i) == (i == n)
  {
    if n == 0 {
      if i > 0 { ZeroBit(i - 1); }
    } else if i > 0 {
      Pow2Bit(n - 1, i - 1);
    }
  }

  lemma {:induction false} OnesBit(n: nat, i: nat)
    ensures Bit(Pow2(n) - 1, i) == (i < n)
  {
    if n == 0 {
      ZeroBit(i);
    } else if i > 0 {
      OnesBit(n - 1, i - 1);
      assert (Pow2(n) - 1) / 2 == Pow2(n - 1) - 1;
    }
  }

  lemma {:induction false} HighBit(v: nat, n: nat, i: nat)
    requires v < Pow2(n) && n <= i
    ensures !Bit(v, i)
  {
    if n == 0 {
      ZeroBit(i);
    } else {
      HighBit(v / 2, n - 1, i - 1);
    }
  }

  /** Words with the same bits are equal. */
  lemma {:induction false} SameBits(a: nat, b: nat)
    requires forall i: nat :: Bit(a, i) == Bit(b, i)
    ensures a == b
    decreases a + b
  {
    if a != 0 || b != 0 {
      assert Bit(a, 0) == Bit(b, 0);
      forall i: nat ensures Bit(a / 2, i) == Bit(b / 2, i) {
        assert Bit(a, i + 1) == Bit(b, i + 1);
      }
      SameBits(a / 2, b / 2);
    }
  }

  lemma ModHalf(v: nat, m: nat)
    requires m >= 1
    ensures v % (2 * m) == 2 * ((v / 2) % m) + v % 2
  {
    var q, r := (v / 2) / m, (v / 2) % m;
    assert v / 2 == q * m + r;
    assert v == (2 * m) * q + (2 * r + v % 2) by {
      assert 2 * (q * m) == (2 * m) * q;
    }
    ModUnique(v, 2 * m, q, 2 * r + v % 2);
  }

  lemma ModUnique(v: int, m: nat, q: int, r: nat)
    requires v == m * q + r && r < m
    ensures v % m == r && v / m == q
  {
    var p := v / m;
    assert v == m * p + v % m;
    assert m * q - m * p == m * (q - p) && m * p - m * q == m * (p - q);
    if q > p {
      MulAtLeast(m, q - p);
    } else if q < p {
      MulAtLeast(m, p - q);
    }
  }

  lemma MulAtLeast(m: nat, d: nat)
    requires d >= 1
    ensures m * d >= m
  {
    assert m * d == m * (d - 1) + m;
  }

  lemma ModBelow(v: nat, m: nat)
    requires m >= 1
    ensures v % m <= v
  {
    if v < m { ModUnique(v, m, 0, v); }
  }

  lemma OnesHalf(n: nat)
    requires n > 0
    ensures (Pow2(n) - 1) / 2 == Pow2(n - 1) - 1 && (Pow2(n) - 1) % 2 == 1
  {
  }

  lemma AndOdd(v: nat, m: nat)
    requires m % 2 == 1
    ensures BitAnd(v, m) == 2 * BitAnd(v / 2, m / 2) + v % 2
  {
  }

  /** The low n bits, digit by digit. */
  function Low(v: nat, n: nat): nat {
    if n == 0 then 0 else 2 * Low(v / 2, n - 1) + v % 2
  }

  lemma {:induction false} LowIsMod(v: nat, n: nat)
    ensures Low(v, n) == v % Pow2(n)
  {
    if n > 0 {
      LowIsMod(v / 2, n - 1);
      ModHalf(v, Pow2(n - 1));
    }
  }

  lemma {:induction false} MaskIsLow(v: nat, n: nat)
    ensures BitAnd(v, Pow2(n) - 1) == Low(v, n)
  {
    if n == 0 {
      AndZero(v);
    } else {
      OnesHalf(n);
      AndOdd(v, Pow2(n) - 1);
      MaskIsLow(v / 2, n - 1);
    }
  }

  /** Masking with n ones is reduction modulo 2^n. */
  lemma MaskIsMod(v: nat, n: nat)
    ensures BitAnd(v, Pow2(n) - 1) == v % Pow2(n)
  {
    MaskIsLow(v, n);
    LowIsMod(v, n);
  }

  lemma {:induction false} AndZero(v: nat)
    ensures BitAnd(v, 0) == 0
  {
    if v != 0 { AndZero(v / 2); }
  }

  lemma ModBit(v: nat, n: nat, i: nat)
    ensures Bit(v % Pow2(n), i) == (i < n && Bit(v, i))
  {
    MaskIsMod(v, n);
    AndBit(v, Pow2(n) - 1, i);
    OnesBit(n, i);
  }

  /** `m << s`. */
  function Shl(m: nat, s: nat): nat {
    if s == 0 then m else 2 * Shl(m, s - 1)
  }

  lemma {:induction false} ShlIsTimes(m: nat, s: nat)
    ensures Shl(m, s) == m * Pow2(s)
  {
    if s > 0 {
      ShlIsTimes(m, s - 1);
      DoubleFactor(m, Pow2(s - 1));
    }
  }

  lemma DoubleFactor(x: int, p: int)
    ensures x * (2 * p) == 2 * (x * p)
  {
  }

  /** Masking at position s and shifting down is shifting down and masking. */
  lemma {:induction false} MaskThenShift(v: nat, m: nat, s: nat)
    ensures Shr(BitAnd(v, Shl(m, s)), s) == BitAnd(Shr(v, s), m)
  {
    if s > 0 {
      AndTwice(v, Shl(m, s - 1));
      MaskThenShift(v / 2, m, s - 1);
    }
  }

  /** `(data & MASK) >> s` picks a field of w bits when MASK has its ones at s, ..., s+w-1. */
  lemma FieldIsDivMod(v: nat, w: nat, s: nat)
    ensures Shr(BitAnd(v, (Pow2(w) - 1) * Pow2(s)), s) == Shr(v, s) % Pow2(w)
  {
    ShlIsTimes(Pow2(w) - 1, s);
    MaskThenShift(v, Pow2(w) - 1, s);
    MaskIsMod(Shr(v, s), w);
  }

  lemma AndTwice(v: nat, m: nat)
    ensures BitAnd(v, 2 * m) == 2 * BitAnd(v / 2, m)
  {
    if v != 0 {
      assert 2 * m / 2 == m && 2 * m % 2 == 0;
    }
  }

  lemma DivTwice(v: nat, p: nat)
    requires p >= 1
    ensures v / (2 * p) == (v / 2) / p
  {
    var q, r := (v / 2) / p, (v / 2) % p;
    assert v / 2 == p * q + r;
    assert v == (2 * p) * q + (2 * r + v % 2) by {
      assert 2 * (p * q) == (2 * p) * q;
    }
    ModUnique(v, 2 * p, q, 2 * r + v % 2);
  }

  /** Shifting right divides by a power of two. */
  lemma {:induction false} ShrIsDiv(v: nat, n: nat)
    ensures Shr(v, n) == v / Pow2(n)
  {
    if n > 0 {
      ShrIsDiv(v / 2, n - 1);
      DivTwice(v, Pow2(n - 1));
    }
  }

  /** `(val >> i) & 1` tests bit i. */
  lemma {:induction false} ShiftedBit(v: nat, i: nat)
    ensures (BitAnd(Shr(v, i), 1) > 0) == Bit(v, i)
  {
    if i == 0 {
      MaskIsMod(v, 1);
      assert Pow2(1) == 2;
    } else {
      ShiftedBit(v / 2, i - 1);
    }
  }

  lemma {:induction false} OrZero(m: nat)
    ensures BitOr(m, 0) == m
  {
    if m != 0 { OrZero(m / 2); }
  }

  lemma OrNextOne(m: nat, i: nat)
    ensures BitOr(BitOr(m, Pow2(i) - 1), Pow2(i)) == BitOr(m, Pow2(i + 1) - 1)
  {
    var a, b := BitOr(BitOr(m, Pow2(i) - 1), Pow2(i)), BitOr(m, Pow2(i + 1) - 1);
    forall k: nat ensures Bit(a, k) == Bit(b, k) {
      OrBit(BitOr(m, Pow2(i) - 1), Pow2(i), k);
      OrBit(m, Pow2(i) - 1, k);
      OrBit(m, Pow2(i + 1) - 1, k);
      OnesBit(i, k);
      OnesBit(i + 1, k);
      Pow2Bit(i, k);
    }
    SameBits(a, b);
  }
}
