/** Fixed-width unsigned words as integers: wrap-around, shifts and bit operations are written out. */
module Words {
  const TWO32: int := 0x1_0000_0000
  const TWO64: int := 0x1_0000_0000_0000_0000

  type uint8 = x: int | 0 <= x < 0x100
  type uint16 = x: int | 0 <= x < 0x1_0000
  type uint32 = x: int | 0 <= x < TWO32
  type uint64 = x: int | 0 <= x < TWO64
  type int64 = x: int | -0x8000_0000_0000_0000 <= x < 0x8000_0000_0000_0000

  /** How many: one or none. */
  function One(b: bool): nat {
    if b then 1 else 0
  }

  function Pow2(k: nat): (p: nat)
    ensures p >= 1
  {
    if k == 0 then 1 else 2 * Pow2(k - 1)
  }

  /** Conversion to uint64, which keeps the value modulo 2^64. */
  function ToUint64(x: int): uint64 {
    x % TWO64
  }

  /** Conversion to int64, two's complement. */
  function ToInt64(x: int): int64 {
    var u := x % TWO64;
    if u < 0x8000_0000_0000_0000 then u else u - TWO64
  }

  /** x << 32 on a uint64: the high bits fall off. */
  function Shl32(x: uint64): uint64 {
    (x * TWO32) % TWO64
  }

  /** x >> 32 on a uint64. */
  function Shr32(x: uint64): uint64 {
    x / TWO32
  }

  /** Bitwise or, one binary digit at a time. */
  function Or(a: nat, b: nat): nat
    decreases a + b
  {
    if a == 0 && b == 0 then 0
    else (if a % 2 == 1 || b % 2 == 1 then 1 else 0) + 2 * Or(a / 2, b / 2)
  }

  /** Bitwise and, one binary digit at a time. */
  function And(a: nat, b: nat): nat
    decreases a + b
  {
    if a == 0 && b == 0 then 0
    else (if a % 2 == 1 && b % 2 == 1 then 1 else 0) + 2 * And(a / 2, b / 2)
  }

  lemma Pow2Sum(j: nat, k: nat)
    ensures Pow2(j + k) == Pow2(j) * Pow2(k)
  {
    if j > 0 {
      Pow2Sum(j - 1, k);
      assert Pow2(j + k) == 2 * (Pow2(j - 1) * Pow2(k));
    }
  }

  lemma Pow2Of32()
    ensures Pow2(32) == TWO32
  {
    assert Pow2(4) == 16;
    Pow2Sum(4, 4);
    Pow2Sum(8, 8);
    Pow2Sum(16, 16);
  }

  lemma ShiftedOut(x: uint64)
    ensures Shl32(x) == (x % TWO32) * TWO32
  {
    assert x == (x / TWO32) * TWO32 + x % TWO32;
    assert x * TWO32 == (x / TWO32) * TWO64 + (x % TWO32) * TWO32;
  }

  /** Wrapping through int64 and uint64 keeps the low 32 bits. */
  lemma LowHalfSurvives(x: int)
    ensures ToUint64(ToInt64(x)) == x % TWO64
    ensures ToUint64(ToInt64(x)) % TWO32 == x % TWO32
  {
    assert x == (x / TWO64) * TWO64 + x % TWO64;
  }

  /** Small integers survive the trip through uint64. */
  lemma SmallSigned(x: int)
    requires -TWO32 <= x < TWO32
    ensures ToInt64(ToUint64(x)) == x
  {
    if x < 0 {
      assert x % TWO64 == x + TWO64;
    }
  }

  /** A 64-bit word splits into its halves. */
  lemma Halves(high: uint32, low: uint32)
    ensures 0 <= high * TWO32 + low < TWO64
    ensures (high * TWO32 + low) / TWO32 == high
    ensures (high * TWO32 + low) % TWO32 == low
  {}

  lemma MulLower(q: int, p: int)
    requires q >= 0 && p >= 1
    ensures q * p >= q
  {}

  lemma MulUpper(q: int, p: int)
    requires q < 0 && p >= 1
    ensures q * p <= -p
  {}

  lemma OrZero(a: nat)
    ensures Or(a, 0) == a
  {
    if a != 0 {
      OrZero(a / 2);
    }
  }

  /** Or-ing into cleared low bits is addition. */
  lemma {:induction false} OrIntoClearedBits(a: nat, b: nat, k: nat)
    requires b < Pow2(k)
    ensures Or(a * Pow2(k), b) == a * Pow2(k) + b
  {
    if k == 0 {
      OrZero(a);
    } else {
      var high := a * Pow2(k - 1);
      assert a * Pow2(k) == 2 * high;
      OrIntoClearedBits(a, b / 2, k - 1);
    }
  }

  /** Masking with 2^k - 1 is the remainder modulo 2^k. */
  lemma {:induction false} MaskIsRemainder(a: nat, k: nat)
    ensures And(a, Pow2(k) - 1) == a % Pow2(k)
  {
    hide And;
    if k == 0 {
      AndZero(a);
    } else {
      var p := Pow2(k - 1);
      MaskIsRemainder(a / 2, k - 1);
      assert Pow2(k) == 2 * p;
      AndOdd(a, p - 1);
      RemainderOfHalf(a, p);
    }
  }

  lemma {:induction false} AndOdd(a: nat, m: nat)
    ensures And(a, 2 * m + 1) == a % 2 + 2 * And(a / 2, m)
  {
    assert (2 * m + 1) / 2 == m;
  }

  lemma {:induction false} RemainderOfHalf(a: nat, p: nat)
    requires p > 0
    ensures a % (2 * p) == a % 2 + 2 * ((a / 2) % p)
  {
    var q, r := (a / 2) / p, (a / 2) % p;
    QuotientNonNegative(a / 2, p);
    assert q * (2 * p) == 2 * (q * p);
    RemainderUnique(a, 2 * p, q, 2 * r + a % 2);
  }

  lemma QuotientNonNegative(a: nat, p: nat)
    requires p > 0
    ensures a / p >= 0
  {}

  lemma AndZero(a: nat)
    ensures And(a, 0) == 0
  {
    if a != 0 {
      AndZero(a / 2);
    }
  }

  lemma RemainderUnique(a: nat, d: nat, q: nat, r: nat)
    requires d > 0 && r < d && a == q * d + r
    ensures a % d == r && a / d == q
  {
    var q', r' := a / d, a % d;
    assert a == q' * d + r';
    assert (q - q') * d == r' - r;
    if q > q' {
      assert (q - q') * d == (q - q' - 1) * d + d;
      MulLower(q - q' - 1, d);
    } else if q < q' {
      MulUpper(q - q', d);
    }
  }
}
