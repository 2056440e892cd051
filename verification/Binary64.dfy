/** Finite binary64 numbers by their fields (section 3.4 of IEEE 754-2019), the exact value each
    stands for, and the canonical hexadecimal rendering of a JSON number. */
module Binary64 {
  import opened Foundations

  const MAX_SAFE_INTEGER: int := 0x1F_FFFF_FFFF_FFFF

  /** Fraction of a binary64: 52 bits. */
  const FRACTION_LIMIT: int := 0x10_0000_0000_0000

  /** The fraction is below FRACTION_LIMIT and the biased exponent below 2047. */
  datatype Double =
    | Finite(negative: bool, exponent: nat, fraction: nat)
    | Infinite(negative: bool)
    | NotANumber

  ghost predicate ValidDouble(d: Double) {
    d.Finite? ==> d.exponent < 2047 && d.fraction < FRACTION_LIMIT
  }

  /** A JSON number as Python holds it. */
  datatype Number = Int(n: int) | Float(d: Double)

  ghost predicate ValidNumber(x: Number) {
    x.Float? ==> ValidDouble(x.d)
  }

  function Pow2(n: nat): (p: nat)
    ensures p >= 1
  {
    if n == 0 then 1 else 2 * Pow2(n - 1)
  }

  lemma {:induction false} Pow2Adds(m: nat, n: nat)
    ensures Pow2(m + n) == Pow2(m) * Pow2(n)
  {
    if m > 0 {
      Pow2Adds(m - 1, n);
    }
  }

  // ----- exact values, as integers in units of 2^-(1022 + 52) -----

  const UNIT_EXPONENT: nat := 1074

  /** One in units of the smallest subnormal. */
  function One(): nat {
    Pow2(UNIT_EXPONENT)
  }

  function Magnitude(exponent: nat, fraction: nat): nat {
    if exponent == 0 then fraction else (FRACTION_LIMIT + fraction) * Pow2(exponent - 1)
  }

  function DoubleValue(d: Double): int
    requires d.Finite?
  {
    if d.negative then -(Magnitude(d.exponent, d.fraction) as int) else Magnitude(d.exponent, d.fraction)
  }

  predicate IsFinite(x: Number) {
    x.Float? ==> x.d.Finite?
  }

  /** The exact numeric value of an int or a finite float, on one common scale. */
  function Value(x: Number): int
    requires IsFinite(x)
  {
    match x
    case Int(n) => n * One()
    case Float(d) => DoubleValue(d)
  }

  // ----- the conversion of a safe integer -----

  /** The position of the leading one bit. */
  function TopBit(n: nat): (k: nat)
    requires n > 0
    ensures Pow2(k) <= n < Pow2(k + 1)
  {
    if n == 1 then 0 else 1 + TopBit(n / 2)
  }

  lemma {:induction false} Pow2At52()
    ensures Pow2(52) == FRACTION_LIMIT && Pow2(53) == 2 * FRACTION_LIMIT
  {
    assert Pow2(13) == 8192;
    Pow2Adds(13, 13);
    Pow2Adds(26, 26);
  }

  lemma {:induction false} Pow2IsMonotone(m: nat, n: nat)
    requires m <= n
    ensures Pow2(m) <= Pow2(n)
  {
    if m < n {
      Pow2IsMonotone(m, n - 1);
    }
  }

  lemma {:induction false} TopBitOfSafe(n: nat)
    requires 0 < n <= MAX_SAFE_INTEGER
    ensures TopBit(n) <= 52
  {
    Pow2At52();
    if TopBit(n) >= 53 {
      Pow2IsMonotone(53, TopBit(n));
    }
  }

  function Abs(n: int): nat {
    if n < 0 then -n else n
  }

  function Shift(m: nat, k: nat): nat {
    m * Pow2(k)
  }

  /** Python's `float(n)` on the safe range: the fields of the exact binary64. */
  function FloatOfSafe(n: int): Double
    requires -MAX_SAFE_INTEGER <= n <= MAX_SAFE_INTEGER
  {
    if n == 0 then Finite(false, 0, 0)
    else
      var k := TopBit(Abs(n));
      TopBitOfSafe(Abs(n));
      Finite(n < 0, 1023 + k, Shift(Abs(n) - Pow2(k), 52 - k))
  }

  lemma {:induction false} SplitProduct(lead: nat, excess: nat, w: nat)
    requires excess < lead && w > 0
    ensures lead * w + excess * w == (lead + excess) * w
    ensures 0 <= excess * w < lead * w
  {
    MulDistributes(lead, excess, w);
    MulIsStrictlyMonotone(excess, lead, w);
  }

  /** Shifting m, whose leading bit is k, up to bit 52 gives a full significand. */
  lemma {:induction false} ShiftedSignificand(m: nat, k: nat)
    requires k <= 52 && Pow2(k) <= m < Pow2(k + 1)
    ensures FRACTION_LIMIT + Shift(m - Pow2(k), 52 - k) == Shift(m, 52 - k)
    ensures Shift(m - Pow2(k), 52 - k) < FRACTION_LIMIT
  {
    Pow2At52();
    Pow2Adds(k, 52 - k);
    SplitProduct(Pow2(k), m - Pow2(k), Pow2(52 - k));
  }

  lemma {:induction false} MagnitudeOfShifted(m: nat, k: nat)
    requires k <= 52 && Pow2(k) <= m < Pow2(k + 1)
    ensures Magnitude(1023 + k, Shift(m - Pow2(k), 52 - k)) == m * One()
  {
    ShiftedSignificand(m, k);
    MulIsAssociative(m, Pow2(52 - k), Pow2(1022 + k));
    Pow2Adds(52 - k, 1022 + k);
  }

  lemma {:induction false} SafeConversionIsExact(n: int)
    requires -MAX_SAFE_INTEGER <= n <= MAX_SAFE_INTEGER
    ensures ValidDouble(FloatOfSafe(n))
    ensures DoubleValue(FloatOfSafe(n)) == n * One()
  {
    if n != 0 {
      TopBitOfSafe(Abs(n));
      SignedConversion(n, TopBit(Abs(n)));
    }
  }

  lemma {:induction false} SignedConversion(n: int, k: nat)
    requires k <= 52 && Pow2(k) <= Abs(n) < Pow2(k + 1)
    ensures var d := Finite(n < 0, 1023 + k, Shift(Abs(n) - Pow2(k), 52 - k));
      ValidDouble(d) && DoubleValue(d) == n * One()
  {
    ShiftedSignificand(Abs(n), k);
    MagnitudeOfShifted(Abs(n), k);
    MulNegates(Abs(n), One());
  }

  lemma {:induction false} MulNegates(a: int, b: int)
    ensures (-a) * b == -(a * b)
  {
  }

  lemma {:induction false} MulDistributes(a: int, b: int, w: int)
    ensures a * w + b * w == (a + b) * w
  {
  }

  lemma {:induction false} MulIsStrictlyMonotone(a: int, b: int, w: nat)
    requires a < b && w > 0
    ensures a * w < b * w
  {
  }

  lemma {:induction false} MulIsAssociative(a: int, b: int, c: int)
    ensures (a * b) * c == a * (b * c)
  {
  }

  // ----- distinct fields stand for distinct values, except for the two zeros -----

  lemma {:induction false} MagnitudeBelowNextExponent(exponent: nat, fraction: nat, next: nat)
    requires fraction < FRACTION_LIMIT && exponent < next
    ensures Magnitude(exponent, fraction) < FRACTION_LIMIT * Pow2(next - 1)
  {
    if exponent == 0 {
      Pow2IsMonotone(0, next - 1);
      MulIsMonotone(FRACTION_LIMIT, 1, Pow2(next - 1));
    } else {
      Pow2IsMonotone(exponent, next - 1);
      var w := Pow2(exponent - 1);
      MulIsStrictlyMonotone(FRACTION_LIMIT + fraction, 2 * FRACTION_LIMIT, w);
      assert (2 * FRACTION_LIMIT) * w == FRACTION_LIMIT * Pow2(exponent);
      MulIsMonotone(FRACTION_LIMIT, Pow2(exponent), Pow2(next - 1));
    }
  }

  lemma {:induction false} MulIsMonotone(w: nat, a: int, b: int)
    requires a <= b
    ensures w * a <= w * b
  {
  }

  lemma {:induction false} MagnitudeGrowsWithExponent(e1: nat, f1: nat, e2: nat, f2: nat)
    requires f1 < FRACTION_LIMIT && e1 < e2
    ensures Magnitude(e1, f1) < Magnitude(e2, f2)
  {
    MagnitudeBelowNextExponent(e1, f1, e2);
    MulDistributes(FRACTION_LIMIT, f2, Pow2(e2 - 1));
  }

  lemma {:induction false} MagnitudeIsInjective(e1: nat, f1: nat, e2: nat, f2: nat)
    requires f1 < FRACTION_LIMIT && f2 < FRACTION_LIMIT
    requires Magnitude(e1, f1) == Magnitude(e2, f2)
    ensures e1 == e2 && f1 == f2
  {
    if e1 < e2 {
      MagnitudeGrowsWithExponent(e1, f1, e2, f2);
    } else if e2 < e1 {
      MagnitudeGrowsWithExponent(e2, f2, e1, f1);
    } else if e1 > 0 {
      if f1 < f2 {
        MulIsStrictlyMonotone(FRACTION_LIMIT + f1, FRACTION_LIMIT + f2, Pow2(e1 - 1));
      } else if f2 < f1 {
        MulIsStrictlyMonotone(FRACTION_LIMIT + f2, FRACTION_LIMIT + f1, Pow2(e1 - 1));
      }
    }
  }

  lemma {:induction false} ZeroMagnitude(exponent: nat, fraction: nat)
    ensures Magnitude(exponent, fraction) == 0 <==> exponent == 0 && fraction == 0
  {
    if exponent > 0 {
      MulIsStrictlyMonotone(0, FRACTION_LIMIT + fraction, Pow2(exponent - 1));
    }
  }

  // ----- the canonical rendering -----

  const ZERO: Double := Finite(false, 0, 0)

  /** `value.is_integer()` for a finite float. */
  predicate IsInteger(d: Double)
    requires d.Finite?
  {
    DoubleValue(d) % One() == 0
  }

  /** Which numbers the canonical form accepts. */
  predicate Accepted(x: Number) {
    match x
    case Int(n) => Abs(n) <= MAX_SAFE_INTEGER
    case Float(d) =>
      d.Finite? && !(IsInteger(d) && Abs(DoubleValue(d)) > MAX_SAFE_INTEGER * One())
  }

  /** The binary64 whose bytes are printed: an exact conversion, with -0 turned into +0. */
  function Normalized(x: Number): Double
    requires Accepted(x)
  {
    var d := match x case Int(n) => FloatOfSafe(n) case Float(d) => d;
    if d.exponent == 0 && d.fraction == 0 then ZERO else d
  }

  /** The sign bit, eleven exponent bits and 52 fraction bits of `struct.pack(">d", ...)`. */
  function Bits(d: Double): nat
    requires d.Finite?
  {
    (if d.negative then 0x8000_0000_0000_0000 else 0) + d.exponent * FRACTION_LIMIT + d.fraction
  }

  function HexDigit(n: nat): CodePoint
    requires n < 16
  {
    if n < 10 then 48 + n else 87 + n
  }

  /** The low digits of n, most significant first. */
  function Hex(n: nat, digits: nat): (t: Text)
    ensures |t| == digits
  {
    if digits == 0 then [] else Hex(n / 16, digits - 1) + [HexDigit(n % 16)]
  }

  function NumberHex(x: Number): Option<Text> {
    if Accepted(x) then Some(Hex(Bits(Normalized(x)), 16)) else None
  }

  lemma {:induction false} NormalizedKeepsValue(x: Number)
    requires ValidNumber(x) && Accepted(x)
    ensures Normalized(x).Finite? && ValidDouble(Normalized(x))
    ensures DoubleValue(Normalized(x)) == Value(x)
    ensures DoubleValue(Normalized(x)) == 0 ==> Normalized(x) == ZERO
  {
    if x.Int? {
      SafeConversionIsExact(x.n);
    }
    ZeroMagnitude(Normalized(x).exponent, Normalized(x).fraction);
  }

  lemma {:induction false} BitsAreInjective(a: Double, b: Double)
    requires a.Finite? && b.Finite? && ValidDouble(a) && ValidDouble(b)
    requires Bits(a) == Bits(b)
    ensures a == b
  {
  }

  lemma {:induction false} BitsFit(d: Double)
    requires d.Finite? && ValidDouble(d)
    ensures Bits(d) < Pow16(16)
  {
    assert Pow16(4) == 0x1_0000 && Pow16(6) == 0x100_0000 && Pow16(8) == 0x1_0000_0000;
    assert Pow16(10) == 0x100_0000_0000 && Pow16(12) == 0x1_0000_0000_0000;
    assert Pow16(14) == 0x100_0000_0000_0000 && Pow16(16) == 0x1_0000_0000_0000_0000;
  }

  function Pow16(n: nat): nat {
    if n == 0 then 1 else 16 * Pow16(n - 1)
  }

  lemma {:induction false} HexIsInjective(a: nat, b: nat, digits: nat)
    requires a < Pow16(digits) && b < Pow16(digits)
    requires Hex(a, digits) == Hex(b, digits)
    ensures a == b
  {
    if digits > 0 {
      var s, t := Hex(a / 16, digits - 1), Hex(b / 16, digits - 1);
      assert Hex(a, digits)[..digits - 1] == s && Hex(b, digits)[..digits - 1] == t;
      assert Hex(a, digits)[digits - 1] == HexDigit(a % 16);
      assert Hex(b, digits)[digits - 1] == HexDigit(b % 16);
      HexIsInjective(a / 16, b / 16, digits - 1);
    }
  }

  /** Two accepted numbers print alike exactly when they are the same number: a safe integer
      like the float of the same value, and -0 like 0. */
  lemma {:induction false} NumberHexIffSameValue(x: Number, y: Number)
    requires ValidNumber(x) && ValidNumber(y) && Accepted(x) && Accepted(y)
    ensures NumberHex(x) == NumberHex(y) <==> Value(x) == Value(y)
  {
    NormalizedKeepsValue(x);
    NormalizedKeepsValue(y);
    var a, b := Normalized(x), Normalized(y);
    if NumberHex(x) == NumberHex(y) {
      BitsFit(a);
      BitsFit(b);
      HexIsInjective(Bits(a), Bits(b), 16);
      BitsAreInjective(a, b);
    }
    if Value(x) == Value(y) && Value(x) != 0 {
      MagnitudeIsInjective(a.exponent, a.fraction, b.exponent, b.fraction);
    }
  }

  lemma {:induction false} SameValueSameAcceptance(x: Number, y: Number)
    requires ValidNumber(x) && ValidNumber(y) && IsFinite(x) && IsFinite(y)
    requires Value(x) == Value(y)
    ensures Accepted(x) == Accepted(y)
  {
    IntegersAreMultiplesOfOne(x);
    IntegersAreMultiplesOfOne(y);
  }

  lemma {:induction false} IntegersAreMultiplesOfOne(x: Number)
    requires IsFinite(x)
    ensures Accepted(x) <==>
      !(Value(x) % One() == 0 && Abs(Value(x)) > MAX_SAFE_INTEGER * One())
  {
    if x.Int? {
      MultipleHasNoRemainder(x.n, One());
      if Abs(x.n) > MAX_SAFE_INTEGER {
        MulIsStrictlyMonotone(MAX_SAFE_INTEGER, Abs(x.n), One());
      } else {
        MulIsMonotone(One(), Abs(x.n), MAX_SAFE_INTEGER);
      }
      MulNegates(x.n, One());
      assert Abs(x.n * One()) == Abs(x.n) * One();
    }
  }

  lemma {:induction false} MultipleHasNoRemainder(n: int, w: int)
    requires w > 0
    ensures n * w % w == 0
  {
    var q, r := n * w / w, n * w % w;
    assert n * w == q * w + r;
    MulDistributes(n, -q, w);
    if n > q {
      MulIsMonotone(w, 1, n - q);
    } else if n < q {
      MulIsMonotone(w, n - q, -1);
    }
  }
}
