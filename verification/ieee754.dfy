/**
 * Numbers as AMF0 carries them: eight bytes in network order, a double by IEEE
 * 754 (a sign bit, 11 bits of exponent, 52 bits of fraction).
 */
module Ieee754 {
  import opened Basics
  import opened Wire

  type Double = b: seq<Byte> | |b| == 8 witness [0, 0, 0, 0, 0, 0, 0, 0]

  /** The implicit leading bit of the significand. */
  const LEADING := 0x10_0000_0000_0000

  const SIGN := 0x8000_0000_0000_0000

  // ---------------------------------------------------------------- bytes as numbers

  function Value(b: seq<Byte>): nat {
    if b == [] then 0 else Value(b[..|b| - 1]) * 256 + b[|b| - 1]
  }

  function BigEndian(n: nat, k: nat): (b: seq<Byte>)
    ensures |b| == k
  {
    if k == 0 then [] else BigEndian(n / 256, k - 1) + [n % 256]
  }

  lemma {:induction false} ValueOfBigEndian(n: nat, k: nat)
    requires n < Pow2(8 * k)
    ensures Value(BigEndian(n, k)) == n
    decreases k
  {
    if k > 0 {
      SmallPowers();
      PowSum(8 * (k - 1), 8);
      assert n / 256 < Pow2(8 * (k - 1));
      ValueOfBigEndian(n / 256, k - 1);
      assert BigEndian(n, k)[..k - 1] == BigEndian(n / 256, k - 1);
    }
  }

  // ---------------------------------------------------------------- powers of two

  function Pow2(n: nat): (p: nat)
    ensures p >= 1
  {
    if n == 0 then 1 else 2 * Pow2(n - 1)
  }

  lemma {:induction false} PowSum(a: nat, b: nat)
    ensures Pow2(a + b) == Pow2(a) * Pow2(b)
    decreases b
  {
    if b > 0 {
      PowSum(a, b - 1);
      assert Pow2(a) * (2 * Pow2(b - 1)) == 2 * (Pow2(a) * Pow2(b - 1));
    }
  }

  lemma PowIs(a: nat, b: nat, x: nat, y: nat, z: nat)
    requires Pow2(a) == x && Pow2(b) == y && z == x * y
    ensures Pow2(a + b) == z
  {
    PowSum(a, b);
  }

  lemma SmallPowers()
    ensures Pow2(1) == 2 && Pow2(2) == 4 && Pow2(4) == 16 && Pow2(5) == 32 && Pow2(8) == 256 && Pow2(16) == 0x1_0000
  {
    assert Pow2(1) == 2 * Pow2(0) && Pow2(2) == 2 * Pow2(1);
    PowIs(2, 2, 4, 4, 16);
    PowIs(4, 1, 16, 2, 32);
    PowIs(4, 4, 16, 16, 0x100);
    PowIs(8, 8, 0x100, 0x100, 0x1_0000);
  }

  lemma PowValues()
    ensures Pow2(21) == 0x20_0000 && Pow2(32) == 0x1_0000_0000 && Pow2(52) == LEADING
    ensures Pow2(64) == 0x1_0000_0000_0000_0000
  {
    SmallPowers();
    PowIs(16, 5, 0x1_0000, 32, 0x20_0000);
    PowIs(16, 4, 0x1_0000, 16, 0x10_0000);
    PowIs(16, 16, 0x1_0000, 0x1_0000, 0x1_0000_0000);
    PowIs(32, 20, 0x1_0000_0000, 0x10_0000, LEADING);
    PowIs(32, 32, 0x1_0000_0000, 0x1_0000_0000, 0x1_0000_0000_0000_0000);
  }

  lemma {:induction false} PowGrows(a: nat, b: nat)
    requires a <= b
    ensures Pow2(a) <= Pow2(b)
    decreases b
  {
    if a < b {
      PowGrows(a, b - 1);
    }
  }

  function Log2(n: nat): nat
    requires n > 0
  {
    if n == 1 then 0 else 1 + Log2(n / 2)
  }

  lemma {:induction false} Log2Bounds(n: nat)
    requires n > 0
    ensures Pow2(Log2(n)) <= n < 2 * Pow2(Log2(n))
  {
    if n > 1 {
      Log2Bounds(n / 2);
    }
  }

  // ---------------------------------------------------------------- reading

  predicate Negative(d: Double) {
    Value(d) >= SIGN
  }

  function Exponent(d: Double): nat {
    Value(d) / LEADING % 2048
  }

  function Fraction(d: Double): (f: nat)
    ensures f < LEADING
  {
    Value(d) % LEADING
  }

  /**
   * Conversion to an unsigned 32-bit integer cuts the fraction off. Where the value
   * is out of range, or no number, the result is up to the platform: None.
   */
  function ToUint32(d: Double): Option<U32> {
    var e := Exponent(d);
    if e < 1023 then Some(0)
    else if Negative(d) || e > 1054 then None
    else Some(Truncated(Fraction(d), 1075 - e))
  }

  function Truncated(f: nat, k: nat): U32
    requires f < LEADING && k >= 21
  {
    TruncatedFits(f, k);
    (LEADING + f) / Pow2(k)
  }

  /** What the conversion makes of a positive number in range: the largest integer that is not above it. */
  lemma ConversionRoundsDown(d: Double)
    requires !Negative(d) && 1023 <= Exponent(d) <= 1054
    ensures var n, scale := ToUint32(d), Pow2(1075 - Exponent(d));
            n.Some? && n.value * scale <= LEADING + Fraction(d) < (n.value + 1) * scale
  {
    var p, m := Pow2(1075 - Exponent(d)), LEADING + Fraction(d);
    assert m == m / p * p + m % p;
    assert (m / p + 1) * p == m / p * p + p;
  }

  lemma TruncatedFits(f: nat, k: nat)
    requires f < LEADING && k >= 21
    ensures 0 <= (LEADING + f) / Pow2(k) < 0x1_0000_0000
  {
    PowValues();
    PowGrows(21, k);
    QuotientBelow(LEADING + f, 0x1_0000_0000, 0x20_0000, Pow2(k));
  }

  lemma QuotientBelow(n: nat, m: nat, a: nat, b: nat)
    requires 0 < a <= b && n < m * a
    ensures 0 <= n / b < m
  {
    assert n == (n / b) * b + n % b;
    if n / b >= m {
      MulMono(m, n / b, b);
      assert m * a <= m * b by {
        MulMono(a, b, m);
      }
    }
  }

  // ---------------------------------------------------------------- writing

  /** A positive double with this exponent field and fraction. */
  function Packed(e: nat, f: nat): Double {
    BigEndian(e * LEADING + f, 8)
  }

  lemma PackedReads(e: nat, f: nat)
    requires e < 2048 && f < LEADING
    ensures !Negative(Packed(e, f)) && Exponent(Packed(e, f)) == e && Fraction(Packed(e, f)) == f
  {
    PowValues();
    ValueOfBigEndian(e * LEADING + f, 8);
  }

  lemma NormalFraction(n: nat, k: nat)
    requires n > 0 && k == Log2(n) && n < 0x1_0000_0000
    ensures k < 32 && LEADING <= n * Pow2(52 - k) < 2 * LEADING
  {
    Log2Bounds(n);
    PowValues();
    if k >= 32 {
      PowGrows(32, k);
      assert false;
    }
    PowSum(k, 52 - k);
    Between(Pow2(k), n, Pow2(52 - k));
  }

  lemma Between(a: nat, n: nat, b: nat)
    requires a <= n < 2 * a && b > 0
    ensures a * b <= n * b < 2 * (a * b)
  {
    MulMono(a, n, b);
    MulStep(n, 2 * a, b);
    assert 2 * a * b == 2 * (a * b);
  }

  /** An unsigned 32-bit integer as a double: exact. */
  function DoubleOf(n: U32): Double {
    if n == 0 then Packed(0, 0)
    else
      var k := Log2(n);
      NormalFraction(n, k);
      Packed(1023 + k, n * Pow2(52 - k) - LEADING)
  }

  lemma Converts(d: Double, n: U32)
    requires !Negative(d) && 1023 <= Exponent(d) <= 1054 && LEADING + Fraction(d) == n * Pow2(1075 - Exponent(d))
    ensures ToUint32(d) == Some(n)
  {
    IndexDivMod(Pow2(1075 - Exponent(d)), 0, n);
  }

  /** Every 32-bit integer survives the way through a double. */
  lemma IntegersComeBack(n: U32)
    ensures ToUint32(DoubleOf(n)) == Some(n)
  {
    if n == 0 {
      PackedReads(0, 0);
    } else {
      var k := Log2(n);
      NormalFraction(n, k);
      PackedConverts(n, k, n * Pow2(52 - k));
    }
  }

  lemma PackedConverts(n: U32, k: nat, m: nat)
    requires k < 32 && m == n * Pow2(52 - k) && LEADING <= m < 2 * LEADING
    ensures ToUint32(Packed(1023 + k, m - LEADING)) == Some(n)
  {
    PackedReads(1023 + k, m - LEADING);
    assert 1075 - (1023 + k) == 52 - k;
    Converts(Packed(1023 + k, m - LEADING), n);
  }

  // ---------------------------------------------------------------- numbers on the wire

  /** A double whose bits behind the first sixteen are zero. */
  lemma OnTheWire(n: U32, k: nat, high: nat)
    requires n > 0 && Log2(n) == k <= 52 && (1022 + k) * LEADING + n * Pow2(52 - k) == high * 0x1_0000_0000_0000
    requires LEADING <= n * Pow2(52 - k) && high < 0x1_0000
    ensures DoubleOf(n) == [high / 256, high % 256, 0, 0, 0, 0, 0, 0]
  {
    HighBytes(high);
    assert DoubleOf(n) == BigEndian(high * 0x1_0000_0000_0000, 8);
  }

  lemma HighBytes(high: nat)
    requires high < 0x1_0000
    ensures BigEndian(high * 0x1_0000_0000_0000, 8) == [high / 256, high % 256, 0, 0, 0, 0, 0, 0]
  {
    ZerosBehind(high, high * 0x1_0000_0000_0000);
    assert BigEndian(high / 256, 1) == [] + [high / 256];
    assert BigEndian(high, 2) == BigEndian(high / 256, 1) + [high % 256];
  }

  lemma PowsBelowLeading()
    ensures Pow2(45) == 0x2000_0000_0000 && Pow2(49) == 0x2_0000_0000_0000
    ensures Pow2(51) == 0x8_0000_0000_0000 && Pow2(52) == LEADING
  {
    SmallPowers();
    PowIs(16, 16, 0x1_0000, 0x1_0000, 0x1_0000_0000);
    PowIs(8, 5, 0x100, 32, 0x2000);
    PowIs(32, 13, 0x1_0000_0000, 0x2000, 0x2000_0000_0000);
    PowIs(45, 4, 0x2000_0000_0000, 16, 0x2_0000_0000_0000);
    PowIs(49, 2, 0x2_0000_0000_0000, 4, 0x8_0000_0000_0000);
    PowIs(51, 1, 0x8_0000_0000_0000, 2, LEADING);
  }

  lemma ZeroOnTheWire()
    ensures DoubleOf(0) == [0, 0, 0, 0, 0, 0, 0, 0]
  {
    HighBytes(0);
  }

  lemma OneOnTheWire()
    ensures DoubleOf(1) == [0x3F, 0xF0, 0, 0, 0, 0, 0, 0]
  {
    PowsBelowLeading();
    OnTheWire(1, 0, 0x3FF0);
  }

  lemma TwoOnTheWire()
    ensures DoubleOf(2) == [0x40, 0, 0, 0, 0, 0, 0, 0]
  {
    PowsBelowLeading();
    assert Log2(2) == 1 + Log2(1);
    OnTheWire(2, 1, 0x4000);
  }

  lemma FifteenOnTheWire()
    ensures DoubleOf(15) == [0x40, 0x2E, 0, 0, 0, 0, 0, 0]
  {
    PowsBelowLeading();
    assert Log2(15) == 1 + Log2(7) && Log2(7) == 1 + Log2(3) && Log2(3) == 1 + Log2(1);
    OnTheWire(15, 3, 0x402E);
  }

  lemma CodecOnTheWire()
    ensures DoubleOf(128) == [0x40, 0x60, 0, 0, 0, 0, 0, 0]
  {
    PowsBelowLeading();
    assert Log2(128) == 1 + Log2(64) && Log2(64) == 1 + Log2(32) && Log2(32) == 1 + Log2(16);
    assert Log2(16) == 1 + Log2(8) && Log2(8) == 1 + Log2(4) && Log2(4) == 1 + Log2(2) && Log2(2) == 1 + Log2(1);
    OnTheWire(128, 7, 0x4060);
  }

  lemma ZerosBehind(n: nat, m: nat)
    requires m == n * 0x1_0000_0000_0000
    ensures BigEndian(m, 8) == BigEndian(n, 2) + [0, 0, 0, 0, 0, 0]
  {
    assert BigEndian(n * 256, 3) == BigEndian(n, 2) + [0];
    assert BigEndian(n * 0x1_0000, 4) == BigEndian(n * 256, 3) + [0];
    assert BigEndian(n * 0x100_0000, 5) == BigEndian(n * 0x1_0000, 4) + [0];
    assert BigEndian(n * 0x1_0000_0000, 6) == BigEndian(n * 0x100_0000, 5) + [0];
    assert BigEndian(n * 0x100_0000_0000, 7) == BigEndian(n * 0x1_0000_0000, 6) + [0];
    assert BigEndian(m, 8) == BigEndian(n * 0x100_0000_0000, 7) + [0];
  }
}
