/** The compensation of the QMP6988 pressure sensor in 64-bit integers: lib/iictask/QMP6988.cpp. */
module Qmp6988 {
  import opened Bits
  import opened Sequences
  import opened Wrappers

  const QMP6988_CALIBRATION_DATA_LENGTH := 25
  const SUBTRACTOR := 8388608

  type int20 = x: int | -0x8_0000 <= x < 0x8_0000
  type int24 = x: int | -0x80_0000 <= x < 0x80_0000

  /** The coefficients as they are stored in the sensor. */
  datatype Calibration = Calibration(
    a0: int20, a1: int16, a2: int16, b00: int20, bt1: int16, bt2: int16,
    bp1: int16, b11: int16, bp2: int16, b12: int16, b21: int16, bp3: int16)

  /** The coefficients as integers; the number behind the Q of each is its count of fraction bits. */
  datatype Coefficients = Coefficients(
    a0: int32, b00: int32,    // Q4
    a1: int32, a2: int32,     // Q23, Q47
    bt1: int64, bt2: int64, bp1: int64, b11: int64,   // Q15, Q38, Q20, Q34
    bp2: int64, b12: int64, b21: int64, bp3: int64)   // Q43, Q53, Q60, Q65

  function Scaled(c: Calibration): Coefficients {
    Coefficients(c.a0, c.b00, 3608 * c.a1 - 1731677965, 16889 * c.a2 - 87619360,
                 2982 * c.bt1 + 107370906, 329854 * c.bt2 + 108083093, 19923 * c.bp1 + 1133836764,
                 2406 * c.b11 + 118215883, 3079 * c.bp2 - 181579595, 6846 * c.b12 + 85590281,
                 13836 * c.b21 + 79333336, 2915 * c.bp3 + 157155561)
  }

  // ----- the polynomials of the data sheet

  /** A coefficient with `q` fraction bits, times up to three factors; all coefficients are 32767 times
      too large. */
  function Monomial(c: int64, q: nat, x: real, y: real, z: real): real {
    c as real / (32767.0 * Pow2(q) as real) * x * y * z
  }

  /** The temperature in 1/256 degrees. */
  function TemperaturePolynomial(ik: Coefficients, dt: int24): real {
    var d := dt as real;
    ik.a0 as real / 16.0 + Monomial(ik.a1, 23, d, 1.0, 1.0) + Monomial(ik.a2, 47, d, d, 1.0)
  }

  /** The pressure in pascal. */
  function PressurePolynomial(ik: Coefficients, dp: int24, tx: int16): real {
    var d, t := dp as real, tx as real;
    ik.b00 as real / 16.0
    + Monomial(ik.bt1, 15, t, 1.0, 1.0) + Monomial(ik.bp1, 20, d, 1.0, 1.0)
    + Monomial(ik.bt2, 38, t, t, 1.0) + Monomial(ik.b11, 34, t, d, 1.0) + Monomial(ik.bp2, 43, d, d, 1.0)
    + Monomial(ik.b12, 53, t, t, d) + Monomial(ik.b21, 60, t, d, d) + Monomial(ik.bp3, 65, d, d, d)
  }

  // ----- the same with the values as they are stored

  /** A stored value in its conversion range of the data sheet: offset A, slope S over the range of 16 bits. */
  function Converted(a: real, s: real, otp: int16): real {
    a + s * otp as real / 32767.0
  }

  function Product(k: real, x: real, y: real, z: real): real {
    k * x * y * z
  }

  /** The temperature of the data sheet of the QMP6988, in 1/256 degrees, from the values in the registers. */
  function DataSheetTemperature(c: Calibration, dt: int24): real {
    var d := dt as real;
    c.a0 as real / 16.0
    + Product(Converted(-0.0063, 0.00043, c.a1), d, 1.0, 1.0)
    + Product(Converted(-0.000000000019, 0.00000000012, c.a2), d, d, 1.0)
  }

  /** The pressure of the data sheet, in pascal. */
  function DataSheetPressure(c: Calibration, dp: int24, tx: int16): real {
    var d, t := dp as real, tx as real;
    c.b00 as real / 16.0
    + Product(Converted(0.1, 0.091, c.bt1), t, 1.0, 1.0)
    + Product(Converted(0.033, 0.019, c.bp1), d, 1.0, 1.0)
    + Product(Converted(0.000000012, 0.0000012, c.bt2), t, t, 1.0)
    + Product(Converted(0.00000021, 0.00000014, c.b11), t, d, 1.0)
    + Product(Converted(-0.00000000063, 0.00000000035, c.bp2), d, d, 1.0)
    + Product(Converted(0.00000000000029, 0.00000000000076, c.b12), t, t, d)
    + Product(Converted(0.0000000000000021, 0.000000000000012, c.b21), t, d, d)
    + Product(Converted(0.00000000000000013, 0.000000000000000079, c.bp3), d, d, d)
  }

  // ----- signed words

  /** `/` of C++, which rounds towards zero. */
  function Div(x: int, d: int): int
    requires d > 0
  {
    if x >= 0 then x / d else -(-x / d)
  }

  function Narrow16(x: int): int16 {
    var w := x % 0x1_0000;
    if w >= 0x8000 then w - 0x1_0000 else w
  }

  function Narrow32(x: int): int32 {
    var w := x % 0x1_0000_0000;
    if w >= 0x8000_0000 then w - 0x1_0000_0000 else w
  }

  /** `x >> k` of a 64-bit number. */
  function Asr(x: int64, k: nat): int64 {
    SarRange(x, k);
    Sar(x, k)
  }

  lemma {:induction false} SarRange(x: int, k: nat)
    ensures if x >= 0 then 0 <= Sar(x, k) <= x else x <= Sar(x, k) < 0
    decreases k
  {
    if k > 0 { SarRange(x / 2, k - 1); }
  }

  lemma {:induction false} SarFloor(x: int, k: nat)
    ensures Pow2(k) * Sar(x, k) <= x < Pow2(k) * Sar(x, k) + Pow2(k)
    decreases k
  {
    if k > 0 {
      SarFloor(x / 2, k - 1);
      Double(Pow2(k - 1), Sar(x, k));
    }
  }

  lemma Double(p: int, y: int)
    ensures 2 * p * y == 2 * (p * y)
  {
  }

  // ----- how far an integer is from the number it stands for

  ghost predicate Near(u: int, x: real, e: real) {
    -e <= u as real - x <= e
  }

  predicate Within(x: int, m: nat) {
    x <= m && -x <= m
  }

  lemma ProductBound(x: int, y: int, mx: nat, my: nat)
    requires Within(x, mx) && Within(y, my)
    ensures Within(x * y, mx * my)
  {
    if x >= 0 {
      if y >= 0 { Monotone(x, mx, y, my); } else { Monotone(x, mx, -y, my); }
    } else {
      if y >= 0 { Monotone(-x, mx, y, my); } else { Monotone(-x, mx, -y, my); }
    }
  }

  lemma Monotone(x: nat, mx: nat, y: nat, my: nat)
    requires x <= mx && y <= my
    ensures x * y <= mx * my
  {
    assert x * y <= mx * y;
    assert mx * y <= mx * my;
  }

  /** One factor and one shift: what is multiplied in enlarges the error, the shift cuts off less than one. */
  lemma NextFactor(u: int, mu: nat, x: real, e: real, y: int, my: nat, k: nat, d: nat, mr: nat)
    requires Within(u, mu) && Within(y, my) && Near(u, x, e) && e >= 0.0 && d == Pow2(k) && mu * my <= d * mr
    ensures Within(u * y, mu * my) && Within(Sar(u * y, k), mr)
    ensures Near(Sar(u * y, k), x * y as real / d as real, e * my as real / d as real + 1.0)
  {
    hide Sar, Pow2, Near;
    ProductBound(u, y, mu, my);
    NearProduct(u, x, e, y, my);
    NearShift(u * y, x * y as real, e * my as real, k, d);
    SarBound(u * y, mu * my, k, d, mr);
  }

  lemma SarBound(x: int, mx: nat, k: nat, d: nat, mr: nat)
    requires Within(x, mx) && d == Pow2(k) && mx <= d * mr
    ensures Within(Sar(x, k), mr)
  {
    hide Sar, Pow2;
    SarFloor(x, k);
    SmallQuotient(d, Sar(x, k), mr);
    assert d * (-Sar(x, k) - 1) == -(d * Sar(x, k)) - d;
    SmallQuotient(d, -Sar(x, k) - 1, mr - 1);
  }

  lemma SmallQuotient(d: nat, r: int, mr: int)
    requires d > 0 && d * r < d * (mr + 1)
    ensures r <= mr
  {
    assert d * (r - (mr + 1)) < 0;
  }

  lemma NearProduct(u: int, x: real, e: real, y: int, my: nat)
    requires Near(u, x, e) && Within(y, my) && e >= 0.0
    ensures Near(u * y, x * y as real, e * my as real)
  {
    var off, t := u as real - x, y as real;
    assert (u * y) as real - x * t == off * t;
    RealProductBound(off, e, t, my as real);
  }

  lemma RealProductBound(a: real, ma: real, b: real, mb: real)
    requires -ma <= a <= ma && -mb <= b <= mb
    ensures -(ma * mb) <= a * b <= ma * mb
  {
    assert (ma - a) * (mb - b) >= 0.0 && (ma + a) * (mb + b) >= 0.0;
    assert (ma - a) * (mb + b) >= 0.0 && (ma + a) * (mb - b) >= 0.0;
  }

  lemma NearShift(u: int, x: real, e: real, k: nat, d: nat)
    requires Near(u, x, e) && d == Pow2(k)
    ensures Near(Sar(u, k), x / d as real, e / d as real + 1.0)
  {
    SarFloor(u, k);
    NearQuotient(u, Sar(u, k), x, e, d);
  }

  /** A quotient rounded down, or towards zero. */
  lemma NearQuotient(u: int, r: int, x: real, e: real, d: nat)
    requires Near(u, x, e) && d > 0 && d * r - d <= u <= d * r + d
    ensures Near(r, x / d as real, e / d as real + 1.0)
  {
    hide Times;
    var m, t := d as real, r as real;
    TimesOfInts(d, r);
    TimesQuotient(m, x);
    TimesQuotient(m, e);
    Rounded(u as real, t, x / m, e / m, m);
  }

  /** A product the solver does not look into. */
  function Times(a: real, b: real): real {
    a * b
  }

  lemma TimesSum(m: real, a: real, b: real)
    ensures Times(m, a + b) == Times(m, a) + Times(m, b)
    ensures Times(m, a - b) == Times(m, a) - Times(m, b)
  {
  }

  lemma TimesOfInts(d: int, r: int)
    ensures (d * r) as real == Times(d as real, r as real)
  {
  }

  lemma TimesQuotient(m: real, x: real)
    requires m > 0.0
    ensures Times(m, x / m) == x
  {
  }

  lemma TimesPositive(m: real, a: real)
    requires m > 0.0 && a > 0.0
    ensures Times(m, a) > 0.0 && Times(m, 1.0) == m
  {
  }

  lemma Rounded(u: real, t: real, x: real, e: real, m: real)
    requires m > 0.0 && -Times(m, e) <= u - Times(m, x) <= Times(m, e) && Times(m, t) - m <= u <= Times(m, t) + m
    ensures -(e + 1.0) <= t - x <= e + 1.0
  {
    hide Times;
    TimesPositive(m, 1.0);
    TimesSum(m, x, e);
    TimesSum(m, t, 1.0);
    if t - 1.0 > x + e {
      TimesPositive(m, (t - 1.0) - (x + e));
      TimesSum(m, t - 1.0, x + e);
    }
    if x - e > t + 1.0 {
      TimesPositive(m, (x - e) - (t + 1.0));
      TimesSum(m, x - e, t + 1.0);
    }
  }

  // ----- the sensor

  /** How large the coefficients can get. */
  lemma CoefficientRanges(c: Calibration)
    ensures var ik := Scaled(c);
            && Within(ik.a0, 524288) && Within(ik.b00, 524288) && Within(ik.a1, 1849904909) && Within(ik.a2, 641038112)
            && Within(ik.bt1, 205085082) && Within(ik.bt2, 10916738965) && Within(ik.bp1, 1786673628)
            && Within(ik.b11, 197055691) && Within(ik.bp2, 282472267) && Within(ik.b12, 309920009)
            && Within(ik.b21, 532711384) && Within(ik.bp3, 252674281)
  {
  }

  /** One of them needs more than 34 bits with its sign. */
  lemma WideCoefficient()
    ensures var c := Calibration(0, 0, 0, 0, 0, 32767, 0, 0, 0, 0, 0, 0);
            Scaled(c).bt2 >= 0x2_0000_0000 && Within(Scaled(c).bt2, 10916738965)
  {
  }

  lemma Shifts()
    ensures Pow2(1) == 2 && Pow2(4) == 16 && Pow2(5) == 32 && Pow2(6) == 64 && Pow2(8) == 256
    ensures Pow2(10) == 1024 && Pow2(11) == 2048 && Pow2(12) == 4096 && Pow2(13) == 8192 && Pow2(14) == 16384
    ensures Pow2(15) == 32768 && Pow2(19) == 524288 && Pow2(22) == 4194304 && Pow2(23) == 8388608
  {
    FieldSizes();
    Pow2Byte(3);
    Pow2Byte(11);
    Pow2Byte(14);
    Pow2Byte(15);
  }

  // ----- the coefficients of the data sheet

  function Size(x: int): nat {
    if x >= 0 then x else -x
  }

  /** Each coefficient with its fraction bits is its conversion, but for one unit of its scale and one for each unit of
      the stored value, since offset and slope are rounded. */
  lemma CoefficientsOfDataSheet(c: Calibration)
    ensures var ik := Scaled(c);
            && ik.a0 == c.a0 && ik.b00 == c.b00
            && Near(ik.a1, 32767.0 * 8388608.0 * Converted(-0.0063, 0.00043, c.a1), Size(c.a1) as real + 1.0)
            && Near(ik.a2, 32767.0 * 140737488355328.0 * Converted(-0.000000000019, 0.00000000012, c.a2),
                    Size(c.a2) as real + 1.0)
            && Near(ik.bt1, 32767.0 * 32768.0 * Converted(0.1, 0.091, c.bt1), Size(c.bt1) as real + 1.0)
            && Near(ik.bp1, 32767.0 * 1048576.0 * Converted(0.033, 0.019, c.bp1), Size(c.bp1) as real + 1.0)
            && Near(ik.bt2, 32767.0 * 274877906944.0 * Converted(0.000000012, 0.0000012, c.bt2), Size(c.bt2) as real + 1.0)
            && Near(ik.b11, 32767.0 * 17179869184.0 * Converted(0.00000021, 0.00000014, c.b11), Size(c.b11) as real + 1.0)
            && Near(ik.bp2, 32767.0 * 8796093022208.0 * Converted(-0.00000000063, 0.00000000035, c.bp2),
                    Size(c.bp2) as real + 1.0)
            && Near(ik.b12, 32767.0 * 9007199254740992.0 * Converted(0.00000000000029, 0.00000000000076, c.b12),
                    Size(c.b12) as real + 1.0)
            && Near(ik.b21, 32767.0 * 1152921504606846976.0 * Converted(0.0000000000000021, 0.000000000000012, c.b21),
                    Size(c.b21) as real + 1.0)
            && Near(ik.bp3, 32767.0 * 36893488147419103232.0 * Converted(0.00000000000000013, 0.000000000000000079, c.bp3),
                    Size(c.bp3) as real + 1.0)
  {
  }

  /** What such a coefficient makes of its monomial. */
  lemma MonomialNear(c: int64, q: nat, p: nat, k: real, otp: int16, x: real, y: real, z: real, m: real)
    requires Pow2(q) == p && -m <= x * y * z <= m
    requires Near(c, Times(32767.0 * p as real, k), Size(otp) as real + 1.0)
    ensures var e := 32769.0 / (32767.0 * p as real) * m;
            -e <= Monomial(c, q, x, y, z) - Product(k, x, y, z) <= e
  {
    hide Pow2, Times;
    var w := 32767.0 * p as real;
    var a, b := c as real / w - k, x * y * z;
    assert Size(otp) as real + 1.0 <= 32769.0;
    Quotients(c as real, w, k);
    RealProductBound(a, 32769.0 / w, b, m);
    Regrouped(c as real / w, k, x, y, z);
  }

  lemma Quotients(c: real, w: real, k: real)
    requires w > 0.0 && -32769.0 <= c - Times(w, k) <= 32769.0
    ensures -(32769.0 / w) <= c / w - k <= 32769.0 / w
  {
    hide Times;
    TimesQuotient(w, c);
    TimesQuotient(w, 32769.0);
    TimesSum(w, c / w, k);
    var a, ma := c / w - k, 32769.0 / w;
    TimesSum(w, a, ma);
    TimesSum(w, ma, a);
    if a > ma { TimesPositive(w, a - ma); }
    if a + ma < 0.0 {
      TimesPositive(w, -(a + ma));
      TimesSum(w, 0.0, a + ma);
      TimesIs(w, 0.0);
    }
  }

  lemma TimesIs(w: real, k: real)
    ensures Times(w, k) == w * k
  {
  }

  lemma ThreeFactors(x: real, y: real, z: real, mx: real, my: real, mz: real)
    requires -mx <= x <= mx && -my <= y <= my && -mz <= z <= mz
    ensures -(mx * my * mz) <= x * y * z <= mx * my * mz
  {
    RealProductBound(x, mx, y, my);
    RealProductBound(x * y, mx * my, z, mz);
  }

  lemma CoefficientTerm(c: int64, q: nat, p: nat, k: real, otp: int16, x: real, y: real, z: real,
                        mx: real, my: real, mz: real)
    requires Pow2(q) == p && Near(c, 32767.0 * p as real * k, Size(otp) as real + 1.0)
    requires -mx <= x <= mx && -my <= y <= my && -mz <= z <= mz
    ensures var e := 32769.0 / (32767.0 * p as real) * (mx * my * mz);
            -e <= Monomial(c, q, x, y, z) - Product(k, x, y, z) <= e
  {
    hide Pow2, Near, Monomial, Product, Size;
    TimesIs(32767.0 * p as real, k);
    ThreeFactors(x, y, z, mx, my, mz);
    MonomialNear(c, q, p, k, otp, x, y, z, mx * my * mz);
  }

  /** The rounded coefficients change the temperature by at most 1.51 units of 1/256 degrees. */
  lemma TemperatureOfDataSheet(c: Calibration, dt: int24)
    ensures -1.51 <= TemperaturePolynomial(Scaled(c), dt) - DataSheetTemperature(c, dt) <= 1.51
  {
    CoefficientsOfDataSheet(c);
    var ik := Scaled(c);
    hide Pow2, Near, Monomial, Product, Size, Converted, Scaled;
    Shifts();
    Fractions();
    var d := dt as real;
    CoefficientTerm(ik.a1, 23, 8388608, Converted(-0.0063, 0.00043, c.a1), c.a1,
                    d, 1.0, 1.0, 8388608.0, 1.0, 1.0);
    CoefficientTerm(ik.a2, 47, 140737488355328, Converted(-0.000000000019, 0.00000000012, c.a2), c.a2,
                    d, d, 1.0, 8388608.0, 8388608.0, 1.0);
  }

  /** They change the pressure by at most 52.1 pascal, for all readings and coefficients. */
  lemma PressureOfDataSheet(c: Calibration, dp: int24, tx: int16)
    ensures -52.1 <= PressurePolynomial(Scaled(c), dp, tx) - DataSheetPressure(c, dp, tx) <= 52.1
  {
    CoefficientsOfDataSheet(c);
    var ik := Scaled(c);
    hide Pow2, Near, Monomial, Product, Size, Converted, Scaled;
    Shifts();
    Fractions();
    var d, t := dp as real, tx as real;
    CoefficientTerm(ik.bt1, 15, 32768, Converted(0.1, 0.091, c.bt1), c.bt1,
                    t, 1.0, 1.0, 32768.0, 1.0, 1.0);
    CoefficientTerm(ik.bp1, 20, 1048576, Converted(0.033, 0.019, c.bp1), c.bp1,
                    d, 1.0, 1.0, 8388608.0, 1.0, 1.0);
    CoefficientTerm(ik.bt2, 38, 274877906944, Converted(0.000000012, 0.0000012, c.bt2), c.bt2,
                    t, t, 1.0, 32768.0, 32768.0, 1.0);
    CoefficientTerm(ik.b11, 34, 17179869184, Converted(0.00000021, 0.00000014, c.b11), c.b11,
                    t, d, 1.0, 32768.0, 8388608.0, 1.0);
    CoefficientTerm(ik.bp2, 43, 8796093022208, Converted(-0.00000000063, 0.00000000035, c.bp2), c.bp2,
                    d, d, 1.0, 8388608.0, 8388608.0, 1.0);
    CoefficientTerm(ik.b12, 53, 9007199254740992, Converted(0.00000000000029, 0.00000000000076, c.b12), c.b12,
                    t, t, d, 32768.0, 32768.0, 8388608.0);
    CoefficientTerm(ik.b21, 60, 1152921504606846976, Converted(0.0000000000000021, 0.000000000000012, c.b21), c.b21,
                    t, d, d, 32768.0, 8388608.0, 8388608.0);
    CoefficientTerm(ik.bp3, 65, 36893488147419103232, Converted(0.00000000000000013, 0.000000000000000079, c.bp3), c.bp3,
                    d, d, d, 8388608.0, 8388608.0, 8388608.0);
  }

  lemma Regrouped(a: real, k: real, x: real, y: real, z: real)
    ensures a * x * y * z - k * x * y * z == (a - k) * (x * y * z)
  {
    assert a * x * y * z == a * (x * y * z) && k * x * y * z == k * (x * y * z);
  }

  // ----- the terms of the pressure polynomial

  /** A term without rounding, `d` times too large. */
  function Term(c: int64, x: real, y: real, z: real, d: real): real
    requires d > 0.0
  {
    c as real * x * y * z / d
  }

  method TermBt1(c: int64, tx: int16) returns (wk: int64)
    requires Within(c, 205085082)
    ensures Within(wk, 6720227966976) && Near(wk, Term(c, tx as real, 1.0, 1.0, 1.0), 0.0)
  {
    ProductBound(c, tx, 205085082, 32768);
    wk := c * tx;
  }

  method TermBp1(c: int64, dp: int24) returns (wk: int64)
    requires Within(c, 1786673628)
    ensures Within(wk, 468365771538432) && Near(wk, Term(c, dp as real, 1.0, 1.0, 32.0), 1.0)
  {
    hide Pow2, Sar;
    Shifts();
    NextFactor(c, 1786673628, c as real, 0.0, dp, 8388608, 5, 32, 468365771538432);
    wk := Asr(c * dp, 5);
  }

  method TermBt2(c: int64, tx: int16) returns (wk: int64)
    requires Within(c, 10916738965)
    ensures Within(wk, 22894060953927680) && Near(wk, Term(c, tx as real, tx as real, 1.0, 512.0), 129.0)
  {
    hide Pow2, Sar;
    Shifts();
    NextFactor(c, 10916738965, c as real, 0.0, tx, 32768, 1, 2, 178859851202560);
    wk := Asr(c * tx, 1);
    NextFactor(wk, 178859851202560, c as real * tx as real / 2.0, 1.0, tx, 32768, 8, 256, 22894060953927680);
    wk := Asr(wk * tx, 8);
  }

  method TermB11(c: int64, tx: int16, dp: int24) returns (wk: int64)
    requires Within(c, 197055691)
    ensures Within(wk, 1692695496671363072) && Near(wk, Term(c, tx as real, dp as real, 1.0, 32.0), 4194305.0)
  {
    hide Pow2, Sar;
    Shifts();
    NextFactor(c, 197055691, c as real, 0.0, tx, 32768, 4, 16, 403570055168);
    wk := Asr(c * tx, 4);
    NextFactor(wk, 403570055168, c as real * tx as real / 16.0, 1.0, dp, 8388608, 1, 2, 1692695496671363072);
    wk := Asr(wk * dp, 1);
  }

  method TermBp2(c: int64, dp: int24) returns (wk: int64)
    requires Within(c, 282472267)
    ensures Within(wk, 1213209148791980032) && Near(wk, Term(c, dp as real, dp as real, 1.0, 16384.0), 4194305.0)
  {
    hide Pow2, Sar;
    Shifts();
    NextFactor(c, 282472267, c as real, 0.0, dp, 8388608, 13, 8192, 289251601408);
    wk := Asr(c * dp, 13);
    NextFactor(wk, 289251601408, c as real * dp as real / 8192.0, 1.0, dp, 8388608, 1, 2, 1213209148791980032);
    wk := Asr(wk * dp, 1);
  }

  method TermB12(c: int64, tx: int16, dp: int24) returns (wk: int64)
    requires Within(c, 309920009)
    ensures Within(wk, 332774075757756416) && Near(wk, Term(c, tx as real, tx as real, dp as real, 8388608.0), 4194305.0)
  {
    hide Pow2, Sar;
    Shifts();
    ProductBound(c, tx, 309920009, 32768);
    NearProduct(c, c as real, 0.0, tx, 32768);
    wk := c * tx;
    var x := c as real * tx as real;
    NextFactor(wk, 10155458854912, x, 0.0, tx, 32768, 22, 4194304, 79339522304);
    wk := Asr(wk * tx, 22);
    NextFactor(wk, 79339522304, x * tx as real / 4194304.0, 1.0, dp, 8388608, 1, 2, 332774075757756416);
    wk := Asr(wk * dp, 1);
  }

  method TermB21(c: int64, tx: int16, dp: int24) returns (wk: int64)
    requires Within(c, 532711384)
    ensures Within(wk, 1143988986243448832) && Near(wk, Term(c, tx as real, dp as real, dp as real, 1073741824.0), 8388609.0)
  {
    hide Pow2, Sar;
    Shifts();
    var x := c as real * tx as real / 64.0;
    NextFactor(c, 532711384, c as real, 0.0, tx, 32768, 6, 64, 272748228608);
    wk := Asr(c * tx, 6);
    NextFactor(wk, 272748228608, x, 1.0, dp, 8388608, 23, 8388608, 272748228608);
    wk := Asr(wk * dp, 23);
    NextFactor(wk, 272748228608, x * dp as real / 8388608.0, 2.0, dp, 8388608, 1, 2, 1143988986243448832);
    wk := Asr(wk * dp, 1);
  }

  method TermBp3(c: int64, dp: int24) returns (wk: int64)
    requires Within(c, 252674281)
    ensures Within(wk, 4340911093741256704)
    ensures Near(wk, Term(c, dp as real, dp as real, dp as real, 34359738368.0), 16777216.0)
  {
    hide Pow2, Sar;
    Shifts();
    var x := c as real * dp as real / 4096.0;
    NextFactor(c, 252674281, c as real, 0.0, dp, 8388608, 12, 4096, 517476927488);
    wk := Asr(c * dp, 12);
    NextFactor(wk, 517476927488, x, 1.0, dp, 8388608, 23, 8388608, 517476927488);
    wk := Asr(wk * dp, 23);
    ProductBound(wk, dp, 517476927488, 8388608);
    NearProduct(wk, x * dp as real / 8388608.0, 2.0, dp, 8388608);
    wk := wk * dp;
  }

  function LinearTerms(ik: Coefficients, d: real, t: real): real {
    Term(ik.bt1, t, 1.0, 1.0, 1.0) + Term(ik.bp1, d, 1.0, 1.0, 32.0)
  }

  function SquareTerms(ik: Coefficients, d: real, t: real): real {
    Term(ik.bt2, t, t, 1.0, 512.0) + Term(ik.b11, t, d, 1.0, 32.0) + Term(ik.bp2, d, d, 1.0, 16384.0)
  }

  function CubicTerms(ik: Coefficients, d: real, t: real): real {
    Term(ik.b12, t, t, d, 8388608.0) + Term(ik.b21, t, d, d, 1073741824.0) + Term(ik.bp3, d, d, d, 34359738368.0)
  }

  method TermA1(c: int64, dt: int24) returns (wk: int64)
    requires Within(c, 1849904909)
    ensures wk == c * dt
    ensures Within(wk, 15518127118876672) && Near(wk, Term(c, dt as real, 1.0, 1.0, 1.0), 0.0)
  {
    ProductBound(c, dt, 1849904909, 8388608);
    wk := c * dt;
  }

  method TermA2(c: int64, dt: int24) returns (wk: int64)
    requires Within(c, 641038112)
    ensures wk == Sar(Sar(c * dt, 14) * dt, 10)
    ensures Within(wk, 2688708717314048) && Near(wk, Term(c, dt as real, dt as real, 1.0, 16777216.0), 8193.0)
  {
    hide Pow2, Sar;
    Shifts();
    NextFactor(c, 641038112, c as real, 0.0, dt, 8388608, 14, 16384, 328211513344);
    wk := Asr(c * dt, 14);
    NextFactor(wk, 328211513344, c as real * dt as real / 16384.0, 1.0, dt, 8388608, 10, 1024, 2688708717314048);
    wk := Asr(wk * dt, 10);
  }

  /** The temperature before it is cut down to 16 bits. */
  function Temperature(ik: Coefficients, dt: int24): int {
    Sar(ik.a0 + Sar(Div(ik.a1 * dt + Sar(Sar(ik.a2 * dt, 14) * dt, 10), 32767), 19), 4)
  }

  predicate Fits16(x: int) {
    -0x8000 <= x < 0x8000
  }

  lemma NarrowTurns(x: int) returns (turns: int)
    ensures x == Narrow16(x) + 0x1_0000 * turns
  {
    turns := if x % 0x1_0000 >= 0x8000 then x / 0x1_0000 + 1 else x / 0x1_0000;
  }

  /** What is cut off does not matter exactly if nothing is; that is so away from the ends of 16 bits. */
  lemma NarrowNear(q: int, x: real, e: real)
    requires Near(q, x, e) && 0.0 <= e < 32767.0
    ensures Near(Narrow16(q), x, e) <==> Fits16(q)
    ensures e - 32768.0 <= x <= 32767.0 - e ==> Fits16(q)
  {
    var turns := NarrowTurns(q);
    if turns == 0 { assert Fits16(q); }
    if turns >= 1 { assert q as real >= Narrow16(q) as real + 65536.0; }
    if turns <= -1 { assert q as real <= Narrow16(q) as real - 65536.0; }
  }

  /** For these coefficients and this reading it does not fit: no 16-bit number comes close. */
  lemma TemperatureOutOfRange(ret: int16)
    ensures var c := Calibration(524287, -32768, 0, 0, 0, 0, 0, 0, 0, 0, 0, 0);
            !Near(ret, TemperaturePolynomial(Scaled(c), -8388608), 40000.0)
  {
    Shifts();
    Fractions();
  }

  lemma TermsOfTemperature(ik: Coefficients, dt: int24)
    ensures var d := dt as real;
            var sum := Term(ik.a1, d, 1.0, 1.0, 1.0) + Term(ik.a2, d, d, 1.0, 16777216.0);
            (ik.a0 as real + sum / 32767.0 / 524288.0) / 16.0 == TemperaturePolynomial(ik, dt)
  {
    hide Pow2, Monomial, Term;
    Shifts();
    Fractions();
    TermOfMonomial(ik.a1, 23, 8388608, dt as real, 1.0, 1.0, 1.0);
    TermOfMonomial(ik.a2, 47, 140737488355328, dt as real, dt as real, 1.0, 16777216.0);
  }

  lemma NearDiv(u: int64, x: real, e: real, d: nat)
    requires Near(u, x, e) && d > 0
    ensures Near(Div(u, d), x / d as real, e / d as real + 1.0)
  {
    hide Near;
    NearQuotient(u, Div(u, d), x, e, d);
  }

  lemma Fractions()
    ensures Pow2(20) == 1048576 && Pow2(34) == 17179869184 && Pow2(38) == 274877906944 && Pow2(43) == 8796093022208
    ensures Pow2(47) == 140737488355328 && Pow2(53) == 9007199254740992
    ensures Pow2(60) == 1152921504606846976 && Pow2(65) == 36893488147419103232
  {
    Shifts();
    Pow2Byte(12); Pow2Byte(20); Pow2Byte(28);
    Pow2Byte(19); Pow2Byte(27); Pow2Byte(30);
    Pow2Byte(35); Pow2Byte(39); Pow2Byte(45);
    Pow2Byte(52); Pow2Byte(57); Pow2Byte(49); Pow2Byte(41); Pow2Byte(33); Pow2Byte(25); Pow2Byte(11); Pow2Byte(22);
    Pow2Byte(37); Pow2Byte(44);
  }

  lemma TermOfMonomial(c: int64, q: nat, p: nat, x: real, y: real, z: real, f: real)
    requires Pow2(q) == p && f > 0.0
    ensures Monomial(c, q, x, y, z) == Term(c, x, y, z, 1.0) / (32767.0 * p as real)
    ensures Term(c, x, y, z, f) == Term(c, x, y, z, 1.0) / f
  {
    var m := 32767.0 * p as real;
    assert c as real / m * m == c as real;
  }

  lemma TermsOfPolynomial(ik: Coefficients, dp: int24, tx: int16)
    ensures var d, t := dp as real, tx as real;
            (LinearTerms(ik, d, t) + SquareTerms(ik, d, t) / 16384.0 + CubicTerms(ik, d, t) / 32768.0) / 32767.0 / 2048.0
              + ik.b00 as real == 16.0 * PressurePolynomial(ik, dp, tx)
  {
    hide Pow2, Monomial, Term;
    Shifts();
    Fractions();
    var d, t := dp as real, tx as real;
    TermOfMonomial(ik.bt1, 15, 32768, t, 1.0, 1.0, 1.0);
    TermOfMonomial(ik.bp1, 20, 1048576, d, 1.0, 1.0, 32.0);
    TermOfMonomial(ik.bt2, 38, 274877906944, t, t, 1.0, 512.0);
    TermOfMonomial(ik.b11, 34, 17179869184, t, d, 1.0, 32.0);
    TermOfMonomial(ik.bp2, 43, 8796093022208, d, d, 1.0, 16384.0);
    TermOfMonomial(ik.b12, 53, 9007199254740992, t, t, d, 8388608.0);
    TermOfMonomial(ik.b21, 60, 1152921504606846976, t, d, d, 1073741824.0);
    TermOfMonomial(ik.bp3, 65, 36893488147419103232, d, d, d, 34359738368.0);
  }

  lemma CloseTemperature(q: int, x: real, y: real)
    requires Near(q, x, 1.07) && -1.51 <= x - y <= 1.51
    ensures Near(Narrow16(q), y, 2.58) <==> Fits16(q)
  {
    NarrowNear(q, y, 2.58);
  }

  lemma ClosePressure(p: int, x: real, y: real)
    requires Near(p, 16.0 * x, 1.001) && -52.1 <= x - y <= 52.1
    ensures Near(p, 16.0 * y, 834.7)
  {
  }

  // ----- words assembled from registers

  /** The bytes `& 0xf0`. */
  function HighNibble(b: byte): nat {
    ShrOfRest(b, 4);
    b - Low(b, 4)
  }

  lemma Nibbles(b: byte)
    ensures Shr(HighNibble(b), 4) == Value(BitsOf(b, 8)[..4]) && Low(b, 4) == Value(BitsOf(b, 8)[4..])
  {
    ByteValue(b);
    ShrOfRest(b, 4);
    ShrValue(BitsOf(b, 8), 4);
    LowValue(BitsOf(b, 8), 4);
  }

  function Word20(hi: byte, mid: byte, low: nat): nat {
    BitOr(BitOr(Shl(hi, 12), Shl(mid, 4)), low)
  }

  function Word24(hi: byte, mid: byte, low: byte): nat {
    BitOr(BitOr(Shl(hi, 16), Shl(mid, 8)), low)
  }

  /** Two bytes read as a 16-bit number. */
  lemma SignedWord16(hi: byte, lo: byte)
    ensures Narrow16(BitOr(Shl(hi, 8), lo)) == SignedValue(BitsOf(hi, 8) + BitsOf(lo, 8))
  {
    hide BitsOf, BitOr, Shl;
    var b := BitsOf(hi, 8) + BitsOf(lo, 8);
    OrTwoBytes(hi, lo);
    Shifts();
    Pow2Byte(8);
    ValueBound(b);
    ValueTopBit(b);
  }

  /** Up and down by 12 bits in a 32-bit word: the sign of a 20-bit number is extended. */
  lemma SignExtended20(b: seq<bool>)
    requires |b| == 20
    ensures Sar(Narrow32(Shl(Value(b), 12)), 12) == SignedValue(b) && Within(SignedValue(b), 0x8_0000)
    ensures SignedValue(b) < 0x8_0000
  {
    hide Value, Shl, Sar;
    Shifts();
    Fractions();
    ValueBound(b);
    ValueTopBit(b);
    ShlIsProduct(Value(b), 12);
    SarFloor(Narrow32(Shl(Value(b), 12)), 12);
  }

  /** The coefficients: a0 and b00 have 20 bits and share byte 24, the others have two bytes each. */
  function CalibrationOf(c: seq<byte>): Calibration
    requires |c| == QMP6988_CALIBRATION_DATA_LENGTH
  {
    Calibration(Wide(c[18], c[19], BitsOf(c[24], 8)[4..]), Narrow(c[20], c[21]), Narrow(c[22], c[23]),
                Wide(c[0], c[1], BitsOf(c[24], 8)[..4]), Narrow(c[2], c[3]), Narrow(c[4], c[5]),
                Narrow(c[6], c[7]), Narrow(c[8], c[9]), Narrow(c[10], c[11]),
                Narrow(c[12], c[13]), Narrow(c[14], c[15]), Narrow(c[16], c[17]))
  }

  function Narrow(hi: byte, lo: byte): int16 {
    SignedWord16(hi, lo);
    SignedValue(BitsOf(hi, 8) + BitsOf(lo, 8))
  }

  function Wide(hi: byte, mid: byte, low: seq<bool>): int20
    requires |low| == 4
  {
    SignExtended20(BitsOf(hi, 8) + BitsOf(mid, 8) + low);
    SignedValue(BitsOf(hi, 8) + BitsOf(mid, 8) + low)
  }

  method Word16Signed(hi: byte, lo: byte) returns (x: int16)
    ensures x == Narrow(hi, lo)
  {
    SignedWord16(hi, lo);
    x := Narrow16(BitOr(Shl(hi, 8), lo));
  }

  method Word20Signed(hi: byte, mid: byte, nibble: nat, ghost low: seq<bool>) returns (x: int20)
    requires |low| == 4 && nibble == Value(low)
    ensures x == Wide(hi, mid, low)
  {
    hide BitOr, Shl, Sar, Value, BitsOf, SignedValue, Narrow32;
    OrTwoBytesAbove(hi, mid, low);
    SignExtended20(BitsOf(hi, 8) + BitsOf(mid, 8) + low);
    var word := Narrow32(Shl(Word20(hi, mid, nibble), 12));
    x := Asr(word, 12);
  }

  /** A 24-bit reading, less the middle of its range. */
  function Reading(d: seq<byte>): int24
    requires |d| == 3
  {
    ReadingBound(d);
    Value(ByteBits(d)) - SUBTRACTOR
  }

  lemma ReadingBound(d: seq<byte>)
    requires |d| == 3
    ensures Value(ByteBits(d)) < 0x100_0000
  {
    hide Value, ByteBits;
    Shifts();
    Pow2Byte(16);
    Pow2Byte(8);
    ValueBound(ByteBits(d));
  }

  /** The subtraction is done on unsigned words. */
  method RawReading(hi: byte, mid: byte, low: byte) returns (x: int24)
    ensures x == Reading([hi, mid, low])
  {
    hide BitOr, Shl, Value, BitsOf;
    var read := Word24(hi, mid, low);
    ByteValue(low);
    OrTwoBytesAbove(hi, mid, BitsOf(low, 8));
    ThreeBytes(hi, mid, low);
    ReadingBound([hi, mid, low]);
    x := Narrow32((read - SUBTRACTOR) % 0x1_0000_0000);
  }

  lemma ThreeBytes(hi: byte, mid: byte, low: byte)
    ensures ByteBits([hi, mid, low]) == BitsOf(hi, 8) + BitsOf(mid, 8) + BitsOf(low, 8)
  {
    hide BitsOf;
    assert ByteBits([hi]) == BitsOf(hi, 8) by { assert [hi][..0] == []; }
    assert ByteBits([hi, mid]) == ByteBits([hi]) + BitsOf(mid, 8) by { assert [hi, mid][..1] == [hi]; }
    assert [hi, mid, low][..2] == [hi, mid];
  }

  // ----- the registers

  lemma {:induction false} ValueAppend(a: seq<bool>, b: seq<bool>)
    ensures Value(a + b) == Value(a) * Pow2(|b|) + Value(b)
  {
    if b == [] {
      Nothing(a);
    } else {
      var b', c := b[..|b| - 1], b[|b| - 1];
      ValueAppend(a, b');
      LastApart(a, b);
      ValueSnoc(a + b', c);
      ValueSnoc(b', c);
      hide Value;
      TwiceAsMuch(Value(a), Pow2(|b'|));
    }
  }

  lemma TwiceAsMuch(v: int, p: int)
    ensures v * (2 * p) == 2 * (v * p)
  {
  }

  /** Two bytes, the high-order one first, in two's complement. */
  lemma NarrowIs(hi: byte, lo: byte)
    ensures Narrow(hi, lo) == if hi < 128 then 256 * hi + lo else 256 * hi + lo - 0x1_0000
  {
    hide BitsOf, Value;
    var b := BitsOf(hi, 8) + BitsOf(lo, 8);
    ValueAppend(BitsOf(hi, 8), BitsOf(lo, 8));
    ByteValue(hi);
    ByteValue(lo);
    ValueTopBit(b);
    Shifts();
    Pow2Byte(8);
  }

  /** Two bytes and half a byte. */
  lemma WideIs(hi: byte, mid: byte, low: seq<bool>)
    requires |low| == 4
    ensures var v := 4096 * hi + 16 * mid + Value(low);
            Wide(hi, mid, low) == if hi < 128 then v else v - 0x10_0000
  {
    hide BitsOf, Value;
    var b := BitsOf(hi, 8) + BitsOf(mid, 8) + low;
    ValueAppend(BitsOf(hi, 8), BitsOf(mid, 8));
    ValueAppend(BitsOf(hi, 8) + BitsOf(mid, 8), low);
    ByteValue(hi);
    ByteValue(mid);
    ValueBound(low);
    ValueTopBit(b);
    Shifts();
    Fractions();
  }

  /** The two halves of a byte. */
  lemma HalvesOf(b: byte)
    ensures Value(BitsOf(b, 8)[..4]) == b / 16 && Value(BitsOf(b, 8)[4..]) == b % 16
  {
    hide BitsOf, Value;
    var bits := BitsOf(b, 8);
    assert bits == bits[..4] + bits[4..];
    ValueAppend(bits[..4], bits[4..]);
    ByteValue(b);
    ValueBound(bits[4..]);
    Shifts();
  }

  function HighByte(v: int16): byte {
    v % 0x1_0000 / 256
  }

  function LowByte(v: int16): byte {
    v % 256
  }

  /** The registers of the sensor that hold a calibration. Numbers of 16 bits take two registers, high-order byte
      first; those of 20 bits share the last register, b00 with its high and a0 with its low half. */
  function RegistersOf(c: Calibration): (r: seq<byte>)
    ensures |r| == QMP6988_CALIBRATION_DATA_LENGTH
  {
    var a0, b00 := c.a0 % 0x10_0000, c.b00 % 0x10_0000;
    [b00 / 4096, b00 / 16 % 256, HighByte(c.bt1), LowByte(c.bt1), HighByte(c.bt2), LowByte(c.bt2),
     HighByte(c.bp1), LowByte(c.bp1), HighByte(c.b11), LowByte(c.b11), HighByte(c.bp2), LowByte(c.bp2),
     HighByte(c.b12), LowByte(c.b12), HighByte(c.b21), LowByte(c.b21), HighByte(c.bp3), LowByte(c.bp3),
     a0 / 4096, a0 / 16 % 256, HighByte(c.a1), LowByte(c.a1), HighByte(c.a2), LowByte(c.a2),
     16 * (b00 % 16) + a0 % 16]
  }

  lemma TwoRegisters(v: int16)
    ensures Narrow(HighByte(v), LowByte(v)) == v
  {
    hide Narrow;
    NarrowIs(HighByte(v), LowByte(v));
  }

  lemma HalfRegisters(v: int20, low: seq<bool>)
    requires |low| == 4 && Value(low) == v % 0x10_0000 % 16
    ensures Wide(v % 0x10_0000 / 4096, v % 0x10_0000 / 16 % 256, low) == v
  {
    hide Wide, Value;
    WideIs(v % 0x10_0000 / 4096, v % 0x10_0000 / 16 % 256, low);
  }

  /** Every calibration is read back from its registers. */
  lemma RegistersReadBack(c: Calibration)
    ensures CalibrationOf(RegistersOf(c)) == c
  {
    hide Narrow, Wide, Value, BitsOf, HighByte, LowByte;
    TwoRegisters(c.bt1);
    TwoRegisters(c.bt2);
    TwoRegisters(c.bp1);
    TwoRegisters(c.b11);
    TwoRegisters(c.bp2);
    TwoRegisters(c.b12);
    TwoRegisters(c.b21);
    TwoRegisters(c.bp3);
    TwoRegisters(c.a1);
    TwoRegisters(c.a2);
    var last := RegistersOf(c)[24];
    HalvesOf(last);
    HalfRegisters(c.a0, BitsOf(last, 8)[4..]);
    HalfRegisters(c.b00, BitsOf(last, 8)[..4]);
  }

  /** A reading, the high-order byte first, counts from the middle of its range. */
  lemma ReadingIs(hi: byte, mid: byte, low: byte)
    ensures Reading([hi, mid, low]) == 65536 * hi + 256 * mid + low - 8388608
  {
    hide BitsOf, Value;
    ThreeBytes(hi, mid, low);
    ValueAppend(BitsOf(hi, 8), BitsOf(mid, 8));
    ValueAppend(BitsOf(hi, 8) + BitsOf(mid, 8), BitsOf(low, 8));
    ByteValue(hi);
    ByteValue(mid);
    ByteValue(low);
    Shifts();
  }

  /** All registers could be read, and this is what they hold. */
  ghost predicate Reads(registers: seq<Option<byte>>, c: seq<byte>) {
    |c| == |registers| && forall i | 0 <= i < |c| :: registers[i] == Some(c[i])
  }

  class Qmp6988 {
    var cali: Calibration
    var ik: Coefficients

    ghost predicate Valid()
      reads this
    {
      ik == Scaled(cali)
    }

    /** Reads the registers one by one; `registers` says what comes back, if anything. */
    method GetCalibrationData(registers: seq<Option<byte>>) returns (status: int)
      requires |registers| == QMP6988_CALIBRATION_DATA_LENGTH
      modifies this
      ensures status == 0 ==> cali == old(cali) && ik == old(ik) && exists i | 0 <= i < |registers| :: registers[i].None?
      ensures status != 0 ==> status == 1 && Valid() && exists c :: Reads(registers, c) && cali == CalibrationOf(c)
    {
      var data := new byte[QMP6988_CALIBRATION_DATA_LENGTH](_ => 0);
      for len := 0 to QMP6988_CALIBRATION_DATA_LENGTH
        invariant cali == old(cali) && ik == old(ik)
        invariant forall i | 0 <= i < len :: registers[i] == Some(data[i])
      {
        if registers[len].None? { return 0; }
        data[len] := registers[len].value;
      }
      Assemble(data[..]);
      assert Reads(registers, data[..]);
      return 1;
    }

    method Assemble(c: seq<byte>)
      requires |c| == QMP6988_CALIBRATION_DATA_LENGTH
      modifies this
      ensures Valid() && cali == CalibrationOf(c)
    {
      hide BitsOf, BitOr, Shl, Shr, Low, Sar, Narrow16, Narrow32, Value, SignedValue, HighNibble;
      Nibbles(c[24]);
      var a0 := Word20Signed(c[18], c[19], Low(c[24], 4), BitsOf(c[24], 8)[4..]);
      var a1 := Word16Signed(c[20], c[21]);
      var a2 := Word16Signed(c[22], c[23]);
      var b00 := Word20Signed(c[0], c[1], Shr(HighNibble(c[24]), 4), BitsOf(c[24], 8)[..4]);
      var bt1 := Word16Signed(c[2], c[3]);
      var bt2 := Word16Signed(c[4], c[5]);
      var bp1 := Word16Signed(c[6], c[7]);
      var b11 := Word16Signed(c[8], c[9]);
      var bp2 := Word16Signed(c[10], c[11]);
      var b12 := Word16Signed(c[12], c[13]);
      var b21 := Word16Signed(c[14], c[15]);
      var bp3 := Word16Signed(c[16], c[17]);
      cali := Calibration(a0, a1, a2, b00, bt1, bt2, bp1, b11, bp2, b12, b21, bp3);
      ik := Coefficients(cali.a0, cali.b00, 3608 * cali.a1 - 1731677965, 16889 * cali.a2 - 87619360,
                         2982 * cali.bt1 + 107370906, 329854 * cali.bt2 + 108083093, 19923 * cali.bp1 + 1133836764,
                         2406 * cali.b11 + 118215883, 3079 * cali.bp2 - 181579595, 6846 * cali.b12 + 85590281,
                         13836 * cali.b21 + 79333336, 2915 * cali.bp3 + 157155561);
    }

    /** Every product and sum stays in 64 bits, and before it is cut down to 16 bits the result is within 1.07
        units of the polynomial. So is what is returned, exactly if the result fits in 16 bits. */
    method ConvTx02e(dt: int24) returns (ret: int16)
      requires Valid()
      ensures ret == Narrow16(Temperature(ik, dt))
      ensures Near(Temperature(ik, dt), TemperaturePolynomial(ik, dt), 1.07)
      ensures Near(ret, TemperaturePolynomial(ik, dt), 1.07) <==> Fits16(Temperature(ik, dt))
    {
      hide Pow2, Sar, Scaled, TemperaturePolynomial, Term, Div, Fits16;
      CoefficientRanges(cali);
      Shifts();
      var wk1: int64, wk2: int64;
      ghost var sum := Term(ik.a1, dt as real, 1.0, 1.0, 1.0) + Term(ik.a2, dt as real, dt as real, 1.0, 16777216.0);
      wk1 := TermA1(ik.a1, dt);
      wk2 := TermA2(ik.a2, dt);
      NearDiv(wk1 + wk2, sum, 8193.0, 32767);
      wk2 := Div(wk1 + wk2, 32767);
      NearShift(wk2, sum / 32767.0, 1.26, 19, 524288);
      SarBound(wk2, 600000000000, 19, 524288, 1144410);
      wk2 := Asr(wk2, 19);
      NearShift(ik.a0 + wk2, ik.a0 as real + sum / 32767.0 / 524288.0, 1.01, 4, 16);
      var q0: int64 := Asr(ik.a0 + wk2, 4);
      ret := Narrow16(q0);
      TermsOfTemperature(ik, dt);
      NarrowNear(q0, TemperaturePolynomial(ik, dt), 1.07);
    }

    /** The square terms, with 29 fraction bits. */
    method SquareSum(dp: int24, tx: int16) returns (wk3: int64)
      requires Valid()
      ensures Within(wk3, 2928798706417270784) && Near(wk3, SquareTerms(ik, dp as real, tx as real), 8388739.0)
    {
      hide Scaled, Term;
      CoefficientRanges(cali);
      var wk2: int64 := TermBt2(ik.bt2, tx);
      wk3 := wk2;
      wk2 := TermB11(ik.b11, tx, dp);
      wk3 := wk3 + wk2;
      wk2 := TermBp2(ik.bp2, dp);
      wk3 := wk3 + wk2;
    }

    /** The cubic terms, with 30 fraction bits. */
    method CubicSum(dp: int24, tx: int16) returns (wk3: int64)
      requires Valid()
      ensures Within(wk3, 5817674155742461952) && Near(wk3, CubicTerms(ik, dp as real, tx as real), 29360130.0)
    {
      hide Scaled, Term;
      CoefficientRanges(cali);
      var wk2: int64 := TermB12(ik.b12, tx, dp);
      wk3 := wk2;
      wk2 := TermB21(ik.b21, tx, dp);
      wk3 := wk3 + wk2;
      wk2 := TermBp3(ik.bp3, dp);
      wk3 := wk3 + wk2;
    }

    /** Every product and sum stays in 64 bits, the result fits in 32 bits, and it is close to the polynomial. */
    method GetPressure02e(dp: int24, tx: int16) returns (ret: int32)
      requires Valid()
      ensures Near(ret, 16.0 * PressurePolynomial(ik, dp, tx), 1.001)
    {
      hide Pow2, Sar, Scaled, PressurePolynomial, Term, SquareTerms, CubicTerms;
      CoefficientRanges(cali);
      Shifts();
      ghost var linear := LinearTerms(ik, dp as real, tx as real);
      ghost var square := SquareTerms(ik, dp as real, tx as real);
      ghost var cubic := CubicTerms(ik, dp as real, tx as real);
      var wk1: int64, wk2: int64, wk3: int64;
      wk1 := TermBt1(ik.bt1, tx);
      wk2 := TermBp1(ik.bp1, dp);
      wk1 := wk1 + wk2;
      wk3 := SquareSum(dp, tx);
      NearShift(wk3, square, 8388739.0, 14, 16384);
      SarBound(wk3, 2928798706417270784, 14, 16384, 178759686671953);
      wk1 := wk1 + Asr(wk3, 14);
      wk3 := CubicSum(dp, tx);
      NearShift(wk3, cubic, 29360130.0, 15, 32768);
      SarBound(wk3, 5817674155742461952, 15, 32768, 177541325553666);
      wk1 := wk1 + Asr(wk3, 15);
      ghost var sum := linear + square / 16384.0 + cubic / 32768.0;
      NearDiv(wk1, sum, 1412.1, 32767);
      wk1 := Div(wk1, 32767);
      NearShift(wk1, sum / 32767.0, 1.05, 11, 2048);
      SarBound(wk1, 40000000000, 11, 2048, 19531250);
      wk1 := Asr(wk1, 11);
      wk1 := wk1 + ik.b00;
      ret := wk1;
      TermsOfPolynomial(ik, dp, tx);
    }

    /** The six data registers: the readings, and the pressure computed from them with the temperature. */
    method CalcPressure(data: Option<seq<byte>>) returns (temperature: int16, pressure: int32, ok: bool)
      requires Valid() && (data.Some? ==> |data.value| == 6)
      ensures ok <==> data.Some?
      ensures ok ==>
                var dp, dt := Reading(data.value[..3]), Reading(data.value[3..]);
                && temperature == Narrow16(Temperature(ik, dt))
                && (Near(temperature, TemperaturePolynomial(ik, dt), 1.07) <==> Fits16(Temperature(ik, dt)))
                && (Near(temperature, DataSheetTemperature(cali, dt), 2.58) <==> Fits16(Temperature(ik, dt)))
                && Near(pressure, 16.0 * PressurePolynomial(ik, dp, temperature), 1.001)
                && Near(pressure, 16.0 * DataSheetPressure(cali, dp, temperature), 834.7)
    {
      hide TemperaturePolynomial, PressurePolynomial, DataSheetTemperature, DataSheetPressure, Near, Temperature,
        Fits16, Narrow16, Scaled;
      if data.None? { return 0, 0, false; }
      var d := data.value;
      var pRaw := RawReading(d[0], d[1], d[2]);
      var tRaw := RawReading(d[3], d[4], d[5]);
      assert d[..3] == [d[0], d[1], d[2]] && d[3..] == [d[3], d[4], d[5]];
      temperature := ConvTx02e(tRaw);
      pressure := GetPressure02e(pRaw, temperature);
      PressureOfDataSheet(cali, pRaw, temperature);
      TemperatureOfDataSheet(cali, tRaw);
      CloseTemperature(Temperature(ik, tRaw), TemperaturePolynomial(ik, tRaw), DataSheetTemperature(cali, tRaw));
      ClosePressure(pressure, PressurePolynomial(ik, pRaw, temperature), DataSheetPressure(cali, pRaw, temperature));
      ok := true;
    }
  }
}
